/**
 * The command-line driver: it collects every source file with both passes, one file after the
 * other, and every include file with the reference pass only; then it plans one prefixing rename per
 * top-level namespace of the tree and applies them all as one list.
 */
module CageCommands {
  import opened Wrappers
  import opened Php
  import opened QNames
  import opened Ast
  import opened Symbols
  import opened SymbolNamespaces
  import opened Tables
  import opened Trees
  import opened CoreContext
  import opened Passes
  import opened DeclarationFinders
  import opened ReferenceFinders
  import opened ContextBuilders
  import opened NamespaceTransforms
  import opened Transforms

  /** Every unit is a list of top-level statements of the one parsed arena. */
  ghost predicate AllParsed(nodes: map<NodeId, Node>, units: seq<seq<NodeId>>) {
    WellFormed(nodes) && forall u :: u in units ==> Parsed(nodes, u)
  }

  /** The source files as written: for each file in turn, its declarations and then its references. */
  function CollectSources(nodes: map<NodeId, Node>, units: seq<seq<NodeId>>, t: TableV): (r: TableV)
    requires AllParsed(nodes, units)
    ensures t.order <= r.order && t.entries.Keys <= r.entries.Keys
    decreases |units|
  {
    if |units| == 0 then t
    else
      assert units[0] in units;
      CollectSources(nodes, units[1..], RefsOf(nodes, units[0], DeclsOf(nodes, units[0], t)))
  }

  /** The include files: for each in turn, its references only. */
  function CollectIncludes(nodes: map<NodeId, Node>, units: seq<seq<NodeId>>, t: TableV): (r: TableV)
    requires AllParsed(nodes, units)
    ensures r.order == t.order && r.entries.Keys == t.entries.Keys
    decreases |units|
  {
    if |units| == 0 then t
    else
      assert units[0] in units;
      CollectIncludes(nodes, units[1..], RefsOf(nodes, units[0], t))
  }

  /** The sources from the `i`-th unit on: that unit's two passes, then the units after it. */
  lemma CollectSourcesAt(nodes: map<NodeId, Node>, units: seq<seq<NodeId>>, t: TableV, i: nat)
    requires AllParsed(nodes, units) && i < |units|
    ensures Parsed(nodes, units[i]) && AllParsed(nodes, units[i..]) && AllParsed(nodes, units[i + 1..])
    ensures CollectSources(nodes, units[i..], t)
         == CollectSources(nodes, units[i + 1..], RefsOf(nodes, units[i], DeclsOf(nodes, units[i], t)))
  {
    assert units[i] in units;
    assert units[i..][1..] == units[i + 1..];
  }

  /** The include files from the `i`-th unit on: that unit's reference pass, then the units after it. */
  lemma CollectIncludesAt(nodes: map<NodeId, Node>, units: seq<seq<NodeId>>, t: TableV, i: nat)
    requires AllParsed(nodes, units) && i < |units|
    ensures Parsed(nodes, units[i]) && AllParsed(nodes, units[i..]) && AllParsed(nodes, units[i + 1..])
    ensures CollectIncludes(nodes, units[i..], t) == CollectIncludes(nodes, units[i + 1..], RefsOf(nodes, units[i], t))
  {
    assert units[i] in units;
    assert units[i..][1..] == units[i + 1..];
  }

  /** The table the command builds from an empty context. */
  function Collected(nodes: map<NodeId, Node>, src: seq<seq<NodeId>>, inc: seq<seq<NodeId>>): TableV
    requires AllParsed(nodes, src) && AllParsed(nodes, inc)
  {
    CollectIncludes(nodes, inc, CollectSources(nodes, src, EmptyDict()))
  }

  /** Both collections keep the table well formed. */
  lemma {:induction false} CollectValid(nodes: map<NodeId, Node>, units: seq<seq<NodeId>>, t: TableV, decls: bool)
    requires AllParsed(nodes, units) && TableValid(t)
    ensures TableValid(if decls then CollectSources(nodes, units, t) else CollectIncludes(nodes, units, t))
    decreases |units|
  {
    if |units| > 0 {
      assert units[0] in units;
      assert forall u :: u in units[1..] ==> u in units;
      var u := units[0];
      BuildKeepsShape(nodes, u, t);
      BuildKeepsShape(nodes, u, DeclsOf(nodes, u, t));
      CollectValid(nodes, units[1..], if decls then RefsOf(nodes, u, DeclsOf(nodes, u, t)) else RefsOf(nodes, u, t), decls);
    }
  }

  /**
   * One visit of the reference pass keeps every namespace reference a name or an identifier: the
   * only namespace reference it records is a namespace statement's name node, which is a name.
   */
  lemma RefStepRenamable(nodes: map<NodeId, Node>, st: PassState, v: Visit)
    requires WellFormed(nodes) && v.id in nodes && NsRefsRenamable(st.table, nodes)
    ensures NsRefsRenamable(RefStep(nodes, st, v).table, nodes)
  {
    var r := RefStep(nodes, st, v);
    var t := st.table;
    match v
    case Enter(id) =>
      assert r.table == t;
    case Leave(id) =>
      if nodes[id].Name? || nodes[id].Identifier? {
        var fqn := RefFqn(nodes, st.stack, id);
        if RecordsRef(t, fqn) {
          assert r.table == AppendSymbolRef(t, KeyOf(fqn), NameOf(fqn), id);
          assert forall k :: k in r.table.entries ==> r.table.entries[k].refs == t.entries[k].refs;
        } else {
          assert r.table == t;
        }
      } else if nodes[id].Namespace? {
        var key := NamespaceKey(nodes, id);
        var name := nodes[id].nameNode;
        assert name in Children(nodes[id]);
        assert name in nodes && nodes[name].Name?;
        if key in t.entries {
          var t1 := AppendNamespaceRef(t, key, name);
          assert r.table == t1;
          assert RefsRenamable(t1.entries[key].refs, nodes) by {
            assert t1.entries[key].refs == t.entries[key].refs + [name];
          }
        } else {
          assert r.table == t;
        }
      } else {
        assert r.table == t;
      }
  }

  /** The whole reference pass keeps every namespace reference a name or an identifier. */
  lemma {:induction false} RefRunRenamable(nodes: map<NodeId, Node>, st: PassState, vs: seq<Visit>)
    requires WellFormed(nodes) && (forall v :: v in vs ==> v.id in nodes) && NsRefsRenamable(st.table, nodes)
    ensures NsRefsRenamable(RefRun(nodes, st, vs).table, nodes)
    decreases |vs|
  {
    if |vs| > 0 {
      assert vs[0] in vs && forall v :: v in vs[1..] ==> v in vs;
      RefStepRenamable(nodes, st, vs[0]);
      RefRunRenamable(nodes, RefStep(nodes, st, vs[0]), vs[1..]);
    }
  }

  /** The declaration pass records no namespace reference, so it keeps the property too. */
  lemma DeclRunRenamable(nodes: map<NodeId, Node>, st: PassState, vs: seq<Visit>)
    requires WellFormed(nodes) && (forall v :: v in vs ==> v.id in nodes) && NsRefsRenamable(st.table, nodes)
    ensures NsRefsRenamable(DeclRun(nodes, st, vs).table, nodes)
  {
    DeclRunAddsNoRefs(nodes, st, vs);
    var t2 := DeclRun(nodes, st, vs).table;
    forall k | k in t2.entries
      ensures RefsRenamable(t2.entries[k].refs, nodes)
    {
      if k in st.table.entries {
        assert t2.entries[k].refs == st.table.entries[k].refs;
      } else {
        assert t2.entries[k].refs == [];
      }
    }
  }

  /** Both collections keep every namespace reference a name or an identifier. */
  lemma {:induction false} CollectRenamable(nodes: map<NodeId, Node>, units: seq<seq<NodeId>>, t: TableV, decls: bool)
    requires AllParsed(nodes, units) && NsRefsRenamable(t, nodes)
    ensures NsRefsRenamable(if decls then CollectSources(nodes, units, t) else CollectIncludes(nodes, units, t), nodes)
    decreases |units|
  {
    if |units| > 0 {
      assert units[0] in units;
      assert forall u :: u in units[1..] ==> u in units;
      var u := units[0];
      var t1 := if decls then DeclsOf(nodes, u, t) else t;
      DeclRunRenamable(nodes, PassState([], t), Walk(nodes, u));
      RefRunRenamable(nodes, PassState([], t1), Walk(nodes, u));
      CollectRenamable(nodes, units[1..], RefsOf(nodes, u, t1), decls);
    }
  }

  /** The table the command collects holds only names and identifiers as namespace references. */
  lemma CollectedRenamable(nodes: map<NodeId, Node>, src: seq<seq<NodeId>>, inc: seq<seq<NodeId>>)
    requires AllParsed(nodes, src) && AllParsed(nodes, inc)
    ensures NsRefsRenamable(Collected(nodes, src, inc), nodes)
  {
    CollectRenamable(nodes, src, EmptyDict(), true);
    CollectRenamable(nodes, inc, CollectSources(nodes, src, EmptyDict()), false);
  }

  /**
   * As intended, a rename applied to the table the command collects never throws, and it rewrites
   * only nodes the table records as references.
   */
  lemma CollectedIntendedTotal(nodes: map<NodeId, Node>, src: seq<seq<NodeId>>, inc: seq<seq<NodeId>>, tr: NamespaceTransform)
    requires AllParsed(nodes, src) && AllParsed(nodes, inc)
    ensures var t := Collected(nodes, src, inc);
      && TableValid(t)
      && ApplyIntended(tr, t, nodes).error.None?
      && TouchesOnly(nodes, ApplyIntended(tr, t, nodes).nodes, KeysRefs(t, t.order))
  {
    CollectValid(nodes, src, EmptyDict(), true);
    CollectValid(nodes, inc, CollectSources(nodes, src, EmptyDict()), false);
    CollectedRenamable(nodes, src, inc);
    var t := Collected(nodes, src, inc);
    ApplyKeysIntendedTotal(nodes, t, t.order, tr);
  }

  /** Every declaration pass, one unit after the other. */
  function DeclsAll(nodes: map<NodeId, Node>, units: seq<seq<NodeId>>, t: TableV): TableV
    requires AllParsed(nodes, units)
    decreases |units|
  {
    if |units| == 0 then t
    else
      assert units[0] in units;
      DeclsAll(nodes, units[1..], DeclsOf(nodes, units[0], t))
  }

  /**
   * The collection of the sources with every declaration pass over all the units first and then every
   * reference pass, the order in which the include directories are already read, so that a reference
   * to a symbol of a later unit is found.
   */
  function CollectSourcesIntended(nodes: map<NodeId, Node>, units: seq<seq<NodeId>>, t: TableV): TableV
    requires AllParsed(nodes, units)
  {
    CollectIncludes(nodes, units, DeclsAll(nodes, units, t))
  }

  /** Reference passes over several units find exactly the symbols found before them. */
  lemma {:induction false} IncludesFindSame(nodes: map<NodeId, Node>, units: seq<seq<NodeId>>, t: TableV, key: string, name: string)
    requires AllParsed(nodes, units)
    ensures LookupSymbol(CollectIncludes(nodes, units, t), key, name).Some? <==> LookupSymbol(t, key, name).Some?
    decreases |units|
  {
    if |units| > 0 {
      assert units[0] in units;
      assert forall u :: u in units[1..] ==> u in units;
      RefRunFindsSame(nodes, PassState([], t), Walk(nodes, units[0]), key, name);
      IncludesFindSame(nodes, units[1..], RefsOf(nodes, units[0], t), key, name);
    }
  }

  /** Reference passes over `a + b` are those over `a`, then those over `b`. */
  lemma {:induction false} IncludesConcat(nodes: map<NodeId, Node>, a: seq<seq<NodeId>>, b: seq<seq<NodeId>>, t: TableV)
    requires AllParsed(nodes, a + b)
    ensures AllParsed(nodes, a) && AllParsed(nodes, b)
    ensures CollectIncludes(nodes, a + b, t) == CollectIncludes(nodes, b, CollectIncludes(nodes, a, t))
    decreases |a|
  {
    assert forall u :: u in a ==> u in a + b;
    assert forall u :: u in b ==> u in a + b;
    if |a| == 0 {
      assert a + b == b;
    } else {
      assert (a + b)[0] == a[0] && (a + b)[1..] == a[1..] + b;
      IncludesConcat(nodes, a[1..], b, RefsOf(nodes, a[0], t));
    }
  }

  /**
   * In the intended collection the reference pass of every unit `j` starts from a table in which
   * exactly the symbols of all the declaration passes are found, whichever unit declared them.
   */
  lemma IntendedSeesAllDecls(nodes: map<NodeId, Node>, units: seq<seq<NodeId>>, t: TableV, j: nat, key: string, name: string)
    requires AllParsed(nodes, units) && j < |units|
    ensures AllParsed(nodes, units[..j]) && Parsed(nodes, units[j]) && AllParsed(nodes, units[j + 1..])
    ensures var d := DeclsAll(nodes, units, t);
      var before := CollectIncludes(nodes, units[..j], d);
      && CollectSourcesIntended(nodes, units, t) == CollectIncludes(nodes, units[j + 1..], RefsOf(nodes, units[j], before))
      && (LookupSymbol(before, key, name).Some? <==> LookupSymbol(d, key, name).Some?)
  {
    var d := DeclsAll(nodes, units, t);
    assert units == units[..j] + units[j..];
    assert units[j] in units;
    IncludesConcat(nodes, units[..j], units[j..], d);
    var before := CollectIncludes(nodes, units[..j], d);
    assert units[j..][0] == units[j] && units[j..][1..] == units[j + 1..];
    IncludesFindSame(nodes, units[..j], d, key, name);
  }

  /** The rename planned for one top-level namespace: the namespace to the prefix followed by it. */
  function PrefixRename(prefix: QName, ns: string): (r: NamespaceTransform)
    ensures r.search == FromString(ns)
    ensures Truthful(prefix) ==> r.replace.parts == List(prefix.parts.vals + r.search.parts.vals)
  {
    var ogNs := FromString(ns);
    NamespaceTransform(ogNs, Merge(prefix, ogNs))
  }

  /** The loop over the tree's top-level keys as a fold: empty keys skipped, one rename appended per other key. */
  function PlanSpec(keys: seq<string>, prefix: QName): (r: seq<Transform>)
    ensures |r| <= |keys|
    ensures forall x :: x in r ==> exists k :: k in keys && Truthy(k) && x == Rename(PrefixRename(prefix, k))
    decreases |keys|
  {
    if |keys| == 0 then []
    else
      assert forall k :: k in keys[1..] ==> k in keys;
      (if Truthy(keys[0]) then [Rename(PrefixRename(prefix, keys[0]))] else []) + PlanSpec(keys[1..], prefix)
  }

  /** One key of the fold: its rename, when it is not empty, then the plan of the rest. */
  lemma PlanSpecUnfold(keys: seq<string>, prefix: QName)
    requires |keys| > 0
    ensures PlanSpec(keys, prefix) == (if Truthy(keys[0]) then [Rename(NamespaceTransform(FromString(keys[0]), Merge(prefix, FromString(keys[0]))))] else []) + PlanSpec(keys[1..], prefix)
  {
  }

  /** The loop's step: the `i`-th key's rename, when it is not empty, comes next in the plan. */
  lemma PlanStep(keys: seq<string>, i: nat, prefix: QName, transforms: seq<Transform>)
    requires i < |keys| && PlanSpec(keys, prefix) == transforms + PlanSpec(keys[i..], prefix)
    ensures var ns := keys[i];
      PlanSpec(keys, prefix) == transforms
        + (if Truthy(ns) then [Rename(NamespaceTransform(FromString(ns), Merge(prefix, FromString(ns))))] else [])
        + PlanSpec(keys[i + 1..], prefix)
  {
    PlanSpecUnfold(keys[i..], prefix);
    assert keys[i..][0] == keys[i] && keys[i..][1..] == keys[i + 1..];
  }

  /** The loop that builds `$transforms` from `$nsTree`. */
  method Plan(tree: Dict<Tree<Symbol>>, prefix: QName) returns (transforms: seq<Transform>)
    ensures transforms == PlanSpec(tree.order, prefix)
  {
    var keys := tree.order;
    transforms := [];
    var i := 0;
    while i < |keys|
      invariant 0 <= i <= |keys|
      invariant PlanSpec(keys, prefix) == transforms + PlanSpec(keys[i..], prefix)
      decreases |keys| - i
    {
      PlanStep(keys, i, prefix, transforms);
      var ns := keys[i];
      if Truthy(ns) {
        var ogNs := FromString(ns);
        var newNs := Merge(prefix, ogNs);
        transforms := transforms + [Rename(NamespaceTransform(ogNs, newNs))];
      } else {
        assert transforms + [] == transforms;
      }
      i := i + 1;
    }
    assert keys[i..] == [];
  }

  /** One prefixing rename per key, in order. */
  function RenamesOf(prefix: QName, ks: seq<string>): (r: seq<Transform>)
    ensures |r| == |ks|
    ensures forall i :: 0 <= i < |ks| ==> r[i] == Rename(PrefixRename(prefix, ks[i]))
    decreases |ks|
  {
    if |ks| == 0 then [] else [Rename(PrefixRename(prefix, ks[0]))] + RenamesOf(prefix, ks[1..])
  }

  /**
   * The plan is exactly one prefixing rename per non-empty key, in the keys' order: its `i`-th
   * transform renames the `i`-th such key.
   */
  lemma {:induction false} PlanSpecRenames(keys: seq<string>, prefix: QName)
    ensures PlanSpec(keys, prefix) == RenamesOf(prefix, KeepTruthy(keys))
    decreases |keys|
  {
    if |keys| > 0 {
      PlanSpecRenames(keys[1..], prefix);
      var tk := KeepTruthy(keys[1..]);
      if Truthy(keys[0]) {
        assert KeepTruthy(keys) == [keys[0]] + tk;
        assert ([keys[0]] + tk)[1..] == tk;
      }
    }
  }

  /** Every non-empty key has its rename in the plan. */
  lemma PlanCoversKeys(keys: seq<string>, prefix: QName, k: string)
    requires k in keys && Truthy(k)
    ensures Rename(PrefixRename(prefix, k)) in PlanSpec(keys, prefix)
  {
    PlanSpecRenames(keys, prefix);
    var tk := KeepTruthy(keys);
    assert k in tk;
    var i :| 0 <= i < |tk| && tk[i] == k;
    assert PlanSpec(keys, prefix)[i] == Rename(PrefixRename(prefix, k));
  }

  /**
   * As written, a planned rename with a non-empty prefix skips no bucket but the global one: a clean
   * namespace that starts with the key grows by the prefix, and one that does not keeps its name,
   * and `isEqualTo` holds in neither case.
   */
  lemma PlannedRenameNeverSkips(prefix: QName, k: string, ns: QName)
    requires Truthful(prefix) && |prefix.parts.vals| > 0
    requires Truthy(k) && SEP !in k
    requires Plain(ns) && |ns.parts.vals| > 0
    ensures !Skips(PrefixRename(prefix, k), ToString(ns))
  {
    var tr := PrefixRename(prefix, k);
    assert Explode(k) == [k];
    assert tr.search.parts == List([k]);
    assert tr.replace.parts.vals == prefix.parts.vals + [k];
    var n := |tr.search.parts.vals|;
    if n <= |ns.parts.vals| && ns.parts.vals[..n] == tr.search.parts.vals {
      RenamedAtRoot(tr, ns);
    } else {
      UntouchedNamespaceNotSkipped(tr, map[], ns, NewSymbolNamespace());
    }
  }

  /** The plan's first transform is a rename that does not skip the namespace `ns`, whose bucket throws. */
  lemma PlanFirstThrowsAt(keys: seq<string>, prefix: QName, t: TableV, k: string, ns: QName)
    requires TableValid(t) && Truthful(prefix) && |prefix.parts.vals| > 0
    requires k in keys && Truthy(k) && forall key :: key in keys ==> SEP !in key
    requires Plain(ns) && |ns.parts.vals| > 0 && ToString(ns) in t.entries && |t.entries[ToString(ns)].refs| > 0
    ensures var plan := PlanSpec(keys, prefix);
      && |plan| > 0 && plan[0].Rename? && ToString(ns) in t.order
      && ThrowsAt(plan[0].rename, ToString(ns), t.entries[ToString(ns)])
  {
    PlanSpecRenames(keys, prefix);
    var tk := KeepTruthy(keys);
    assert k in tk;
    var first := tk[0];
    assert first in tk;
    PlannedRenameNeverSkips(prefix, first, ns);
    assert PlanSpec(keys, prefix)[0] == Rename(PrefixRename(prefix, first));
  }

  /**
   * As written, a plan with a non-empty prefix and at least one key throws the rename's exception on
   * any table holding a namespace reference in a bucket other than the global one: the first rename
   * skips no such bucket, so it reaches one and throws there, and the list stops.
   */
  lemma PlanThrowsOnNamespaceRef(keys: seq<string>, prefix: QName, t: TableV, nodes: map<NodeId, Node>, k: string, ns: QName)
    requires TableValid(t) && Truthful(prefix) && |prefix.parts.vals| > 0
    requires k in keys && Truthy(k) && forall key :: key in keys ==> SEP !in key
    requires Plain(ns) && |ns.parts.vals| > 0 && ToString(ns) in t.entries && |t.entries[ToString(ns)].refs| > 0
    ensures ListOutcome(PlanSpec(keys, prefix), t, nodes).error == Some(RuntimeException(CannotRename))
  {
    PlanFirstThrowsAt(keys, prefix, t, k, ns);
    var plan := PlanSpec(keys, prefix);
    assert TransformOutcome(plan[0], t, nodes).error.Some?;
  }

  /** The first segment of a namespace that holds a bucket is a top-level key of the tree, and no top-level key holds a separator. */
  lemma TreeHoldsFirstSegment(t: TableV, ns: QName)
    requires TableValid(t)
    requires Plain(ns) && |ns.parts.vals| > 0 && ToString(ns) in t.entries
    requires BuildTree(t.order, SymbolMaps(t), EmptyDict()).Ok?
    ensures var order := BuildTree(t.order, SymbolMaps(t), EmptyDict()).value.order;
      ns.parts.vals[0] in order && Truthy(ns.parts.vals[0]) && forall key :: key in order ==> SEP !in key
  {
    BuildTreeTopKeys(t.order, SymbolMaps(t), EmptyDict());
    TopKeysHas([], t.order);
    FromStringToString(ns);
    assert ToString(ns) in t.order;
    assert ns.parts.vals[0] in ns.parts.vals;
  }

  /**
   * As written, with a non-empty prefix, the plan over the top-level keys of a table's tree throws the
   * rename's exception when a namespace other than the global one holds a namespace reference.
   */
  lemma TreePlanThrowsOnNamespaceRef(prefix: QName, t: TableV, nodes: map<NodeId, Node>, ns: QName)
    requires TableValid(t) && Truthful(prefix) && |prefix.parts.vals| > 0
    requires Plain(ns) && |ns.parts.vals| > 0 && ToString(ns) in t.entries && |t.entries[ToString(ns)].refs| > 0
    requires BuildTree(t.order, SymbolMaps(t), EmptyDict()).Ok?
    ensures var tree := BuildTree(t.order, SymbolMaps(t), EmptyDict()).value;
      TransformOutcome(Composite(PlanSpec(tree.order, prefix)), t, nodes).error == Some(RuntimeException(CannotRename))
  {
    var order := BuildTree(t.order, SymbolMaps(t), EmptyDict()).value.order;
    TreeHoldsFirstSegment(t, ns);
    PlanThrowsOnNamespaceRef(order, prefix, t, nodes, ns.parts.vals[0], ns);
  }

  /**
   * As written, the command ends in the rename's exception whenever the prefix is not empty, the tree
   * is built, and some namespace other than the global one is named by a namespace statement that the
   * reference passes recorded.
   */
  lemma CommandThrowsOnNamespaceRef(prefixOption: string, nodes: map<NodeId, Node>, src: seq<seq<NodeId>>, inc: seq<seq<NodeId>>, ns: QName)
    requires AllParsed(nodes, src) && AllParsed(nodes, inc)
    requires |FromString(prefixOption).parts.vals| > 0
    requires Plain(ns) && |ns.parts.vals| > 0
    requires var t := Collected(nodes, src, inc);
      && ToString(ns) in t.entries && |t.entries[ToString(ns)].refs| > 0
      && (forall k :: k in t.order ==> k in t.entries)
      && BuildTree(t.order, SymbolMaps(t), EmptyDict()).Ok?
    ensures CommandOutcome(prefixOption, nodes, src, inc).error == Some(RuntimeException(CannotRename))
  {
    CollectValid(nodes, src, EmptyDict(), true);
    CollectValid(nodes, inc, CollectSources(nodes, src, EmptyDict()), false);
    TreePlanThrowsOnNamespaceRef(FromString(prefixOption), Collected(nodes, src, inc), nodes, ns);
  }

  /** `execute()` from the options to the transform: what it does to the nodes, and what it throws. */
  function CommandOutcome(prefixOption: string, nodes: map<NodeId, Node>, src: seq<seq<NodeId>>, inc: seq<seq<NodeId>>): (r: Outcome)
    requires AllParsed(nodes, src) && AllParsed(nodes, inc)
    ensures r.nodes.Keys == nodes.Keys
    ensures forall id :: id in nodes && !nodes[id].Name? && !nodes[id].Identifier? ==> r.nodes[id] == nodes[id]
    ensures r.error.Some? ==> r.error.value in {RuntimeException(CannotRename), TypeError(NotAnArray)}
  {
    CollectValid(nodes, src, EmptyDict(), true);
    CollectValid(nodes, inc, CollectSources(nodes, src, EmptyDict()), false);
    var t := Collected(nodes, src, inc);
    match BuildTree(t.order, SymbolMaps(t), EmptyDict())
    case Threw(e) => Outcome(nodes, Some(e))
    case Ok(tree) =>
      var plan := Composite(PlanSpec(tree.order, FromString(prefixOption)));
      TransformTouches(plan, t, nodes);
      TransformOutcome(plan, t, nodes)
  }

  /**
   * `execute()`: the collection over the units the file finder yields, in that order, then the tree,
   * the plan and the transform list applied to the nodes. Printing the units is not part of this
   * model.
   */
  method Execute(prefixOption: string, arena: Arena, src: seq<seq<NodeId>>, inc: seq<seq<NodeId>>) returns (error: Option<Error>)
    requires AllParsed(arena.nodes, src) && AllParsed(arena.nodes, inc)
    modifies arena
    ensures Outcome(arena.nodes, error) == CommandOutcome(prefixOption, old(arena.nodes), src, inc)
  {
    var nodes := arena.nodes;
    var prefix := FromString(prefixOption);
    var ctx := new Context();
    var builder := new ContextBuilder(ctx);
    ScanSources(builder, nodes, src);
    ScanIncludes(builder, nodes, inc);
    CollectValid(nodes, src, EmptyDict(), true);
    CollectValid(nodes, inc, CollectSources(nodes, src, EmptyDict()), false);
    var nsTree := ctx.GetTree();
    match nsTree {
      case Threw(e) =>
        return Some(e);
      case Ok(tree) =>
        var transforms := Plan(tree, prefix);
        var transform := NewTransformList(transforms);
        error := ApplyTransform(transform, ctx, arena);
    }
  }

  /** The file finder's callback for the source directory, over each unit in turn: `buildDecls`, then `buildRefs`. */
  method ScanSources(builder: ContextBuilder, nodes: map<NodeId, Node>, src: seq<seq<NodeId>>)
    requires AllParsed(nodes, src) && builder.Valid()
    modifies builder.declPass, builder.refPass, builder.declPass.ctx
    ensures builder.declPass.ctx.namespaces == CollectSources(nodes, src, old(builder.declPass.ctx.namespaces))
  {
    var ctx := builder.declPass.ctx;
    var i := 0;
    while i < |src|
      invariant 0 <= i <= |src|
      invariant CollectSources(nodes, src, old(ctx.namespaces)) == CollectSources(nodes, src[i..], ctx.namespaces)
      decreases |src| - i
    {
      CollectSourcesAt(nodes, src, ctx.namespaces, i);
      builder.BuildDecls(nodes, src[i]);
      builder.BuildRefs(nodes, src[i]);
      i := i + 1;
    }
    assert src[i..] == [];
  }

  /** The callback for each include directory, over each unit in turn: `buildRefs` only. */
  method ScanIncludes(builder: ContextBuilder, nodes: map<NodeId, Node>, inc: seq<seq<NodeId>>)
    requires AllParsed(nodes, inc)
    modifies builder.refPass, builder.refPass.ctx
    ensures builder.refPass.ctx.namespaces == CollectIncludes(nodes, inc, old(builder.refPass.ctx.namespaces))
  {
    var ctx := builder.refPass.ctx;
    var i := 0;
    while i < |inc|
      invariant 0 <= i <= |inc|
      invariant CollectIncludes(nodes, inc, old(ctx.namespaces)) == CollectIncludes(nodes, inc[i..], ctx.namespaces)
      decreases |inc| - i
    {
      CollectIncludesAt(nodes, inc, ctx.namespaces, i);
      builder.BuildRefs(nodes, inc[i]);
      i := i + 1;
    }
    assert inc[i..] == [];
  }
}
