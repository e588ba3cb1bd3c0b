/**
 * The namespace rename: for every bucket of the table whose key the rename changes, the nodes that
 * name the namespace and the name nodes that refer to its symbols are rewritten in place.
 */
module NamespaceTransforms {
  import opened Wrappers
  import opened Php
  import opened QNames
  import opened Ast
  import opened Symbols
  import opened SymbolNamespaces
  import opened Tables
  import opened CoreContext

  /** The syntax trees of all analysed files: the node objects, which a transform rewrites in place. */
  class Arena {
    var nodes: map<NodeId, Node>

    constructor (nodes: map<NodeId, Node>)
      ensures this.nodes == nodes
    {
      this.nodes := nodes;
    }
  }

  /** The nodes after a transform, and the exception it threw, if any; what was rewritten before a throw stays rewritten. */
  datatype Outcome = Outcome(nodes: map<NodeId, Node>, error: Option<Error>)

  /** The message of the exception thrown after the first reference to a renamed namespace. */
  const CannotRename := "Invalid node type; cannot rename node"

  /** `new NamespaceTransform($search, $replace)`: rename the namespace `search` to `replace`. */
  datatype NamespaceTransform = NamespaceTransform(search: QName, replace: QName)

  /** Which `replace` a rename uses: the one as written, or the one splicing at the documented position. */
  datatype Reading = AsWritten | Intended

  /** `$name->replace($search, $replace, 0)`: the replacement anchored at the root. */
  function ReplaceAtStart(q: QName, search: Arr, replace: Arr, reading: Reading): QName {
    if reading.AsWritten? then Replace(q, search, replace, 0) else ReplaceIntended(q, search, replace, 0)
  }

  /** The name a namespace key is renamed to: `search` replaced by `replace`, anchored at the root. */
  function Renamed(tr: NamespaceTransform, key: string, reading: Reading := AsWritten): QName {
    ReplaceAtStart(FromString(key), tr.search.parts, tr.replace.parts, reading)
  }

  /** As written, a bucket is skipped when `isEqualTo` holds between its new and its old name. */
  predicate Skips(tr: NamespaceTransform, key: string) {
    NoSegmentAgrees(Renamed(tr, key), FromString(key))
  }

  /** A reference to the namespace gets the new name: a name node its segments, an identifier its string. */
  function RenameNsRef(nodes: map<NodeId, Node>, ref: NodeId, newNs: QName): map<NodeId, Node> {
    if ref !in nodes then nodes
    else match nodes[ref]
      case Name(_, resolved) => nodes[ref := Name(newNs.parts.vals, resolved)]
      case Identifier(_) => nodes[ref := Identifier(ToString(newNs))]
      case _ => nodes
  }

  /** A reference to a symbol, when it is a name node, gets its own segments renamed; any other node is left alone. */
  function RenameSymbolRef(nodes: map<NodeId, Node>, ref: NodeId, tr: NamespaceTransform, reading: Reading := AsWritten): map<NodeId, Node> {
    if ref in nodes && nodes[ref].Name? then
      var renamed := ReplaceAtStart(Make(List(nodes[ref].parts)), tr.search.parts, tr.replace.parts, reading);
      nodes[ref := nodes[ref].(parts := renamed.parts.vals)]
    else nodes
  }

  /** The references of one symbol, in order. */
  function RenameRefs(nodes: map<NodeId, Node>, refs: seq<NodeId>, tr: NamespaceTransform, reading: Reading := AsWritten): map<NodeId, Node>
    decreases |refs|
  {
    if |refs| == 0 then nodes else RenameRefs(RenameSymbolRef(nodes, refs[0], tr, reading), refs[1..], tr, reading)
  }

  /** The references of the symbols of one bucket, symbol by symbol in the bucket's order. */
  function RenameSymbols(nodes: map<NodeId, Node>, syms: Dict<Symbol>, names: seq<string>, tr: NamespaceTransform, reading: Reading := AsWritten): map<NodeId, Node>
    requires forall n :: n in names ==> n in syms.entries
    decreases |names|
  {
    if |names| == 0 then nodes
    else RenameSymbols(RenameRefs(nodes, syms.entries[names[0]].refs, tr, reading), syms, names[1..], tr, reading)
  }

  /** A bucket that the rename does not skip and that holds a namespace reference: `apply` throws there. */
  predicate ThrowsAt(tr: NamespaceTransform, key: string, b: SymbolNamespace) {
    !Skips(tr, key) && |b.refs| > 0
  }

  /** One bucket, as written: skipped, or its first namespace reference renamed and then the throw, or its symbols' references renamed. */
  function ApplyBucket(nodes: map<NodeId, Node>, key: string, b: SymbolNamespace, tr: NamespaceTransform): (r: Outcome)
    requires b.symbols.Valid()
    ensures r.error.Some? <==> ThrowsAt(tr, key, b)
    ensures r.error.Some? ==> r.error.value == RuntimeException(CannotRename)
  {
    if Skips(tr, key) then Outcome(nodes, None)
    else if |b.refs| > 0 then Outcome(RenameNsRef(nodes, b.refs[0], Renamed(tr, key)), Some(RuntimeException(CannotRename)))
    else Outcome(RenameSymbols(nodes, b.symbols, b.symbols.order, tr), None)
  }

  /** The buckets at `keys`, in order, stopping at the first that throws. */
  function ApplyKeys(nodes: map<NodeId, Node>, t: TableV, keys: seq<string>, tr: NamespaceTransform): (r: Outcome)
    requires TableValid(t) && forall k :: k in keys ==> k in t.entries
    ensures r.error.Some? <==> exists k :: k in keys && ThrowsAt(tr, k, t.entries[k])
    ensures r.error.Some? ==> r.error.value == RuntimeException(CannotRename)
    decreases |keys|
  {
    if |keys| == 0 then Outcome(nodes, None)
    else
      var o := ApplyBucket(nodes, keys[0], t.entries[keys[0]], tr);
      if o.error.Some? then o
      else
        assert forall k :: k in keys <==> k == keys[0] || k in keys[1..];
        ApplyKeys(o.nodes, t, keys[1..], tr)
  }

  /** `apply($context)` as written: every bucket of the table in the table's order. */
  function ApplySpec(tr: NamespaceTransform, t: TableV, nodes: map<NodeId, Node>): (r: Outcome)
    requires TableValid(t)
    ensures r.error.Some? <==> exists k :: k in t.order && ThrowsAt(tr, k, t.entries[k])
    ensures r.error.Some? ==> r.error.value == RuntimeException(CannotRename)
  {
    ApplyKeys(nodes, t, t.order, tr)
  }

  /** `$namespaceTransform->apply($context)`: the loop over the buckets, rewriting nodes in place. */
  method Apply(tr: NamespaceTransform, ctx: Context, arena: Arena) returns (error: Option<Error>)
    requires ctx.Valid()
    modifies arena
    ensures Outcome(arena.nodes, error) == ApplySpec(tr, ctx.namespaces, old(arena.nodes))
  {
    var t := ctx.namespaces;
    var keys := t.order;
    var i := 0;
    while i < |keys|
      invariant 0 <= i <= |keys|
      invariant ApplySpec(tr, t, old(arena.nodes)) == ApplyKeys(arena.nodes, t, keys[i..], tr)
      decreases |keys| - i
    {
      assert keys[i..][1..] == keys[i + 1..];
      assert keys[i] in keys;
      error := ApplyBucketLoop(tr, keys[i], t.entries[keys[i]], arena);
      if error.Some? {
        return;
      }
      i := i + 1;
    }
    assert keys[i..] == [];
    return None;
  }

  /**
   * The body of the loop for one bucket. The loop over the namespace references throws at the end of
   * its first iteration, whatever the node was, so it runs at most once: it is an `if` here.
   */
  method ApplyBucketLoop(tr: NamespaceTransform, nsName: string, ns: SymbolNamespace, arena: Arena) returns (error: Option<Error>)
    requires ns.symbols.Valid()
    modifies arena
    ensures Outcome(arena.nodes, error) == ApplyBucket(old(arena.nodes), nsName, ns, tr)
  {
    var oldNsFqn := FromString(nsName);
    var newNsFqn := Replace(oldNsFqn, tr.search.parts, tr.replace.parts, 0);
    var same := IsEqualTo(newNsFqn, oldNsFqn);
    if same {
      return None;
    }
    if |ns.refs| > 0 {
      var ref := ns.refs[0];
      if ref in arena.nodes && arena.nodes[ref].Name? {
        arena.nodes := arena.nodes[ref := Name(newNsFqn.parts.vals, arena.nodes[ref].resolvedName)];
      } else if ref in arena.nodes && arena.nodes[ref].Identifier? {
        arena.nodes := arena.nodes[ref := Identifier(ToString(newNsFqn))];
      }
      return Some(RuntimeException(CannotRename));
    }
    RenameSymbolsLoop(tr, ns.symbols, arena);
    return None;
  }

  /** The loop over a bucket's symbols and their references, rewriting each name node reference. */
  method RenameSymbolsLoop(tr: NamespaceTransform, syms: Dict<Symbol>, arena: Arena)
    requires syms.Valid()
    modifies arena
    ensures arena.nodes == RenameSymbols(old(arena.nodes), syms, syms.order, tr)
  {
    var names := syms.order;
    var j := 0;
    while j < |names|
      invariant 0 <= j <= |names|
      invariant RenameSymbols(old(arena.nodes), syms, names, tr) == RenameSymbols(arena.nodes, syms, names[j..], tr)
    {
      assert names[j..][1..] == names[j + 1..];
      assert names[j] in names;
      var refs := syms.entries[names[j]].refs;
      var k := 0;
      ghost var start := arena.nodes;
      while k < |refs|
        invariant 0 <= k <= |refs|
        invariant RenameRefs(start, refs, tr) == RenameRefs(arena.nodes, refs[k..], tr)
      {
        assert refs[k..][1..] == refs[k + 1..];
        var ref := refs[k];
        if ref in arena.nodes && arena.nodes[ref].Name? {
          var oldRefName := Make(List(arena.nodes[ref].parts));
          var newRefName := Replace(oldRefName, tr.search.parts, tr.replace.parts, 0);
          arena.nodes := arena.nodes[ref := arena.nodes[ref].(parts := newRefName.parts.vals)];
        }
        k := k + 1;
      }
      assert refs[k..] == [];
      j := j + 1;
    }
    assert names[j..] == [];
  }

  /** As written, the global namespace's bucket, whose key has no segment, is always skipped. */
  lemma GlobalBucketSkipped(tr: NamespaceTransform, nodes: map<NodeId, Node>, b: SymbolNamespace)
    requires b.symbols.Valid()
    ensures Skips(tr, "")
    ensures ApplyBucket(nodes, "", b, tr) == Outcome(nodes, None)
  {
    var q := FromString("");
    assert Explode("") == [""];
    assert q.parts.vals == [];
    assert FirstRunKey(q, tr.search.parts) == -1;
    assert Renamed(tr, "").parts.vals == [];
  }

  /**
   * As written, a namespace the rename does not touch is not skipped: with a clean search, the key of
   * a clean name that does not start with `search` keeps its name, and `isEqualTo` of a non-empty
   * name with itself is false, so the bucket is still processed and one with a namespace reference
   * makes the transform throw.
   */
  lemma UntouchedNamespaceNotSkipped(tr: NamespaceTransform, nodes: map<NodeId, Node>, ns: QName, b: SymbolNamespace)
    requires Plain(tr.search) && |tr.search.parts.vals| > 0 && Truthful(tr.replace)
    requires Plain(ns) && |ns.parts.vals| > 0 && b.symbols.Valid()
    requires var n := |tr.search.parts.vals|; !(n <= |ns.parts.vals| && ns.parts.vals[..n] == tr.search.parts.vals)
    ensures Renamed(tr, ToString(ns)) == ns
    ensures !Skips(tr, ToString(ns))
    ensures |b.refs| > 0 ==> ApplyBucket(nodes, ToString(ns), b, tr).error == Some(RuntimeException(CannotRename))
  {
    FromStringToString(ns);
    ReplaceAtRoot(ns, tr.search.parts, tr.replace.parts);
    NoSegmentAgreesSelf(ns);
  }

  /**
   * As written, a namespace that starts with `search` is renamed to `replace` followed by the rest of
   * its segments; when that changes its length, as adding a prefix does, it is never skipped.
   */
  lemma RenamedAtRoot(tr: NamespaceTransform, ns: QName)
    requires Plain(tr.search) && |tr.search.parts.vals| > 0 && Truthful(tr.replace)
    requires Plain(ns)
    requires var n := |tr.search.parts.vals|; n <= |ns.parts.vals| && ns.parts.vals[..n] == tr.search.parts.vals
    ensures Renamed(tr, ToString(ns)).parts.vals == tr.replace.parts.vals + ns.parts.vals[|tr.search.parts.vals|..]
    ensures |tr.replace.parts.vals| != |tr.search.parts.vals| ==> !Skips(tr, ToString(ns))
  {
    FromStringToString(ns);
    ReplaceAtRoot(ns, tr.search.parts, tr.replace.parts);
    if |tr.replace.parts.vals| != |tr.search.parts.vals| {
      NoSegmentAgreesLength(Renamed(tr, ToString(ns)), FromString(ToString(ns)));
    }
  }

  /**
   * As written, a bucket that is not skipped and has a reference to its namespace renames that first
   * reference and then throws: its later references and its symbols are never reached, and neither
   * is any later bucket.
   */
  lemma ThrowsAfterFirstRef(tr: NamespaceTransform, nodes: map<NodeId, Node>, t: TableV, keys: seq<string>)
    requires TableValid(t) && |keys| > 0 && forall k :: k in keys ==> k in t.entries
    requires !Skips(tr, keys[0]) && |t.entries[keys[0]].refs| > 0
    ensures ApplyKeys(nodes, t, keys, tr) ==
      Outcome(RenameNsRef(nodes, t.entries[keys[0]].refs[0], Renamed(tr, keys[0])), Some(RuntimeException(CannotRename)))
  {
  }

  /** Running over `a + b` is running over `a` and then, unless that threw, over `b` from where `a` left the nodes. */
  lemma {:induction false} ApplyKeysConcat(nodes: map<NodeId, Node>, t: TableV, a: seq<string>, b: seq<string>, tr: NamespaceTransform)
    requires TableValid(t) && (forall k :: k in a ==> k in t.entries) && (forall k :: k in b ==> k in t.entries)
    ensures forall k :: k in a + b ==> k in t.entries
    ensures var o := ApplyKeys(nodes, t, a, tr);
      ApplyKeys(nodes, t, a + b, tr) == if o.error.Some? then o else ApplyKeys(o.nodes, t, b, tr)
    decreases |a|
  {
    if |a| == 0 {
      assert a + b == b;
    } else {
      assert forall k :: k in a[1..] ==> k in a;
      assert (a + b)[0] == a[0] && (a + b)[1..] == a[1..] + b;
      var o := ApplyBucket(nodes, a[0], t.entries[a[0]], tr);
      if o.error.None? {
        ApplyKeysConcat(o.nodes, t, a[1..], b, tr);
      }
    }
  }

  /**
   * How a transform may change the nodes: the same ids; only nodes in `refs` change; a name node stays
   * a name node with the same resolved name, an identifier stays an identifier, and every other node,
   * declarations among them, stays as it was.
   */
  ghost predicate TouchesOnly(nodes: map<NodeId, Node>, nodes': map<NodeId, Node>, refs: set<NodeId>) {
    && nodes'.Keys == nodes.Keys
    && (forall id :: id in nodes && id !in refs ==> nodes'[id] == nodes[id])
    && (forall id :: id in nodes && nodes[id].Name? ==> nodes'[id].Name? && nodes'[id].resolvedName == nodes[id].resolvedName)
    && (forall id :: id in nodes && nodes[id].Identifier? ==> nodes'[id].Identifier?)
    && (forall id :: id in nodes && !nodes[id].Name? && !nodes[id].Identifier? ==> nodes'[id] == nodes[id])
  }

  /** Touching only `a`, then only `b`, touches only `a + b`. */
  lemma TouchesOnlyTrans(n1: map<NodeId, Node>, n2: map<NodeId, Node>, n3: map<NodeId, Node>, a: set<NodeId>, b: set<NodeId>)
    requires TouchesOnly(n1, n2, a) && TouchesOnly(n2, n3, b)
    ensures TouchesOnly(n1, n3, a + b)
  {
  }

  /** The references of the symbols at `names`. */
  function SymbolRefs(syms: Dict<Symbol>, names: seq<string>): set<NodeId>
    requires forall n :: n in names ==> n in syms.entries
    decreases |names|
  {
    if |names| == 0 then {} else (set r | r in syms.entries[names[0]].refs) + SymbolRefs(syms, names[1..])
  }

  /** Every reference held by a bucket: its namespace references and the references of its symbols. */
  function BucketRefs(b: SymbolNamespace): set<NodeId>
    requires b.symbols.Valid()
  {
    (set r | r in b.refs) + SymbolRefs(b.symbols, b.symbols.order)
  }

  /** Every reference held by the buckets at `keys`. */
  function KeysRefs(t: TableV, keys: seq<string>): set<NodeId>
    requires TableValid(t) && forall k :: k in keys ==> k in t.entries
    decreases |keys|
  {
    if |keys| == 0 then {} else BucketRefs(t.entries[keys[0]]) + KeysRefs(t, keys[1..])
  }

  /** Only the references of one symbol, and only name nodes among them, get rewritten. */
  lemma {:induction false} RenameRefsTouches(nodes: map<NodeId, Node>, refs: seq<NodeId>, tr: NamespaceTransform, reading: Reading)
    ensures TouchesOnly(nodes, RenameRefs(nodes, refs, tr, reading), set r | r in refs)
    ensures forall id :: id in nodes && nodes[id].Identifier? ==> RenameRefs(nodes, refs, tr, reading)[id] == nodes[id]
    decreases |refs|
  {
    if |refs| > 0 {
      var n1 := RenameSymbolRef(nodes, refs[0], tr, reading);
      RenameRefsTouches(n1, refs[1..], tr, reading);
      TouchesOnlyTrans(nodes, n1, RenameRefs(n1, refs[1..], tr, reading), {refs[0]}, set r | r in refs[1..]);
      assert (set r | r in refs) == {refs[0]} + (set r | r in refs[1..]);
    }
  }

  /** The symbol loop of a bucket touches only its symbols' references, and leaves identifiers alone. */
  lemma {:induction false} RenameSymbolsTouches(nodes: map<NodeId, Node>, syms: Dict<Symbol>, names: seq<string>, tr: NamespaceTransform, reading: Reading)
    requires forall n :: n in names ==> n in syms.entries
    ensures TouchesOnly(nodes, RenameSymbols(nodes, syms, names, tr, reading), SymbolRefs(syms, names))
    ensures forall id :: id in nodes && nodes[id].Identifier? ==> RenameSymbols(nodes, syms, names, tr, reading)[id] == nodes[id]
    decreases |names|
  {
    if |names| > 0 {
      assert forall n :: n in names[1..] ==> n in names;
      var first := syms.entries[names[0]].refs;
      var n1 := RenameRefs(nodes, first, tr, reading);
      RenameRefsTouches(nodes, first, tr, reading);
      RenameSymbolsTouches(n1, syms, names[1..], tr, reading);
      TouchesOnlyTrans(nodes, n1, RenameSymbols(n1, syms, names[1..], tr, reading), (set r | r in first), SymbolRefs(syms, names[1..]));
    }
  }

  /** Touching only `a` is touching only any larger set. */
  lemma TouchesOnlyMore(n1: map<NodeId, Node>, n2: map<NodeId, Node>, a: set<NodeId>, b: set<NodeId>)
    requires TouchesOnly(n1, n2, a) && a <= b
    ensures TouchesOnly(n1, n2, b)
  {
  }

  /** Renaming the first namespace reference touches only that node. */
  lemma RenameNsRefTouches(nodes: map<NodeId, Node>, ref: NodeId, newNs: QName)
    ensures TouchesOnly(nodes, RenameNsRef(nodes, ref, newNs), {ref})
  {
  }

  /** A bucket's step touches only the references the bucket holds. */
  lemma ApplyBucketTouches(nodes: map<NodeId, Node>, key: string, b: SymbolNamespace, tr: NamespaceTransform)
    requires b.symbols.Valid()
    ensures TouchesOnly(nodes, ApplyBucket(nodes, key, b, tr).nodes, BucketRefs(b))
  {
    var out := ApplyBucket(nodes, key, b, tr).nodes;
    if Skips(tr, key) {
      assert out == nodes;
    } else if |b.refs| > 0 {
      RenameNsRefTouches(nodes, b.refs[0], Renamed(tr, key));
      assert b.refs[0] in BucketRefs(b);
      TouchesOnlyMore(nodes, out, {b.refs[0]}, BucketRefs(b));
    } else {
      RenameSymbolsTouches(nodes, b.symbols, b.symbols.order, tr, AsWritten);
      TouchesOnlyMore(nodes, out, SymbolRefs(b.symbols, b.symbols.order), BucketRefs(b));
    }
  }

  /**
   * The transform rewrites only nodes the buckets hold as references, keeps every node's kind and
   * resolved name, never changes a declaration or any node other than a name or an identifier, and
   * never adds or removes a node.
   */
  lemma {:induction false} ApplyKeysTouches(nodes: map<NodeId, Node>, t: TableV, keys: seq<string>, tr: NamespaceTransform)
    requires TableValid(t) && forall k :: k in keys ==> k in t.entries
    ensures TouchesOnly(nodes, ApplyKeys(nodes, t, keys, tr).nodes, KeysRefs(t, keys))
    decreases |keys|
  {
    if |keys| > 0 {
      assert forall k :: k in keys[1..] ==> k in keys;
      var b := t.entries[keys[0]];
      var o := ApplyBucket(nodes, keys[0], b, tr);
      ApplyBucketTouches(nodes, keys[0], b, tr);
      TouchesOnlyMore(nodes, o.nodes, BucketRefs(b), KeysRefs(t, keys));
      if o.error.None? {
        ApplyKeysTouches(o.nodes, t, keys[1..], tr);
        TouchesOnlyTrans(nodes, o.nodes, ApplyKeys(o.nodes, t, keys[1..], tr).nodes, BucketRefs(b), KeysRefs(t, keys[1..]));
      }
    }
  }

  /**
   * A symbol reference that is a name node of clean segments is renamed at the root: when its
   * segments start with `search`, those are replaced by `replace`; otherwise it keeps its segments.
   */
  lemma RenameSymbolRefAtRoot(nodes: map<NodeId, Node>, ref: NodeId, tr: NamespaceTransform)
    requires ref in nodes && nodes[ref].Name? && Segments(nodes[ref].parts)
    requires Plain(tr.search) && |tr.search.parts.vals| > 0 && Truthful(tr.replace)
    ensures var parts := nodes[ref].parts;
      var n := |tr.search.parts.vals|;
      RenameSymbolRef(nodes, ref, tr)[ref].parts ==
        if n <= |parts| && parts[..n] == tr.search.parts.vals then tr.replace.parts.vals + parts[n..] else parts
  {
    var parts := nodes[ref].parts;
    assert Make(List(parts)) == QName(List(parts));
    ReplaceAtRoot(QName(List(parts)), tr.search.parts, tr.replace.parts);
  }

  // The rename as evidently intended: a bucket is skipped when its name does not change, every
  // reference to the namespace is renamed and only a reference of another kind throws, and the
  // replacement splices at the documented position.

  /** A bucket is skipped when the rename leaves its name as it was. */
  predicate SkipsIntended(tr: NamespaceTransform, key: string) {
    KeysAgree(Renamed(tr, key, Intended), FromString(key))
  }

  /** All references to the namespace, in order; a node that is neither a name nor an identifier throws. */
  function RenameNsRefsIntended(nodes: map<NodeId, Node>, refs: seq<NodeId>, newNs: QName): Outcome
    decreases |refs|
  {
    if |refs| == 0 then Outcome(nodes, None)
    else if refs[0] in nodes && (nodes[refs[0]].Name? || nodes[refs[0]].Identifier?) then
      RenameNsRefsIntended(RenameNsRef(nodes, refs[0], newNs), refs[1..], newNs)
    else Outcome(nodes, Some(RuntimeException(CannotRename)))
  }

  /** One bucket as intended: skipped, or all its namespace references and then its symbols' references renamed. */
  function ApplyBucketIntended(nodes: map<NodeId, Node>, key: string, b: SymbolNamespace, tr: NamespaceTransform): Outcome
    requires b.symbols.Valid()
  {
    if SkipsIntended(tr, key) then Outcome(nodes, None)
    else
      var o := RenameNsRefsIntended(nodes, b.refs, Renamed(tr, key, Intended));
      if o.error.Some? then o else Outcome(RenameSymbols(o.nodes, b.symbols, b.symbols.order, tr, Intended), None)
  }

  /** The buckets at `keys` as intended, in order, stopping at the first that throws. */
  function ApplyKeysIntended(nodes: map<NodeId, Node>, t: TableV, keys: seq<string>, tr: NamespaceTransform): Outcome
    requires TableValid(t) && forall k :: k in keys ==> k in t.entries
    decreases |keys|
  {
    if |keys| == 0 then Outcome(nodes, None)
    else
      var o := ApplyBucketIntended(nodes, keys[0], t.entries[keys[0]], tr);
      if o.error.Some? then o else ApplyKeysIntended(o.nodes, t, keys[1..], tr)
  }

  /** `apply($context)` as intended. */
  function ApplyIntended(tr: NamespaceTransform, t: TableV, nodes: map<NodeId, Node>): Outcome
    requires TableValid(t)
  {
    ApplyKeysIntended(nodes, t, t.order, tr)
  }

  /** Every reference in `refs` is a name or an identifier node. */
  ghost predicate RefsRenamable(refs: seq<NodeId>, nodes: map<NodeId, Node>) {
    forall r :: r in refs ==> r in nodes && (nodes[r].Name? || nodes[r].Identifier?)
  }

  /** Every reference to a namespace in the table is a name or an identifier node, as the reference pass records them. */
  ghost predicate NsRefsRenamable(t: TableV, nodes: map<NodeId, Node>) {
    forall k :: k in t.entries ==> RefsRenamable(t.entries[k].refs, nodes)
  }

  /**
   * When every reference is of a kind that can be renamed, the intended loop throws nothing, and every
   * reference afterwards carries the new name: a name node its segments, an identifier its string.
   */
  lemma {:induction false} RenameNsRefsIntendedRenamesAll(nodes: map<NodeId, Node>, refs: seq<NodeId>, newNs: QName)
    requires forall r :: r in refs ==> r in nodes && (nodes[r].Name? || nodes[r].Identifier?)
    ensures var o := RenameNsRefsIntended(nodes, refs, newNs);
      && o.error.None?
      && TouchesOnly(nodes, o.nodes, set r | r in refs)
      && forall r :: r in refs ==> (o.nodes[r].Name? && o.nodes[r].parts == newNs.parts.vals) || o.nodes[r] == Identifier(ToString(newNs))
    decreases |refs|
  {
    if |refs| > 0 {
      var n1 := RenameNsRef(nodes, refs[0], newNs);
      RenameNsRefTouches(nodes, refs[0], newNs);
      RenameNsRefsIntendedRenamesAll(n1, refs[1..], newNs);
      var o := RenameNsRefsIntended(n1, refs[1..], newNs);
      TouchesOnlyTrans(nodes, n1, o.nodes, {refs[0]}, set r | r in refs[1..]);
      assert (set r | r in refs) == {refs[0]} + (set r | r in refs[1..]);
      if refs[0] !in refs[1..] {
        assert o.nodes[refs[0]] == n1[refs[0]];
      }
    }
  }

  /** The intended bucket step throws nothing when its namespace references are all renamable, and touches only its references. */
  lemma ApplyBucketIntendedTotal(nodes: map<NodeId, Node>, key: string, b: SymbolNamespace, tr: NamespaceTransform)
    requires b.symbols.Valid()
    requires forall r :: r in b.refs ==> r in nodes && (nodes[r].Name? || nodes[r].Identifier?)
    ensures ApplyBucketIntended(nodes, key, b, tr).error.None?
    ensures TouchesOnly(nodes, ApplyBucketIntended(nodes, key, b, tr).nodes, BucketRefs(b))
  {
    if !SkipsIntended(tr, key) {
      var o := RenameNsRefsIntended(nodes, b.refs, Renamed(tr, key, Intended));
      RenameNsRefsIntendedRenamesAll(nodes, b.refs, Renamed(tr, key, Intended));
      RenameSymbolsTouches(o.nodes, b.symbols, b.symbols.order, tr, Intended);
      TouchesOnlyTrans(nodes, o.nodes, ApplyBucketIntended(nodes, key, b, tr).nodes, (set r | r in b.refs), SymbolRefs(b.symbols, b.symbols.order));
    }
  }

  /** Renamable references stay renamable after any step that touches only references. */
  lemma RenamableKept(t: TableV, nodes: map<NodeId, Node>, nodes': map<NodeId, Node>, refs: set<NodeId>)
    requires NsRefsRenamable(t, nodes) && TouchesOnly(nodes, nodes', refs)
    ensures NsRefsRenamable(t, nodes')
  {
  }

  /** The first bucket of the intended loop throws nothing, touches only its references, and leaves them renamable. */
  lemma ApplyKeysIntendedHead(nodes: map<NodeId, Node>, t: TableV, keys: seq<string>, tr: NamespaceTransform)
    requires TableValid(t) && |keys| > 0 && keys[0] in t.entries && NsRefsRenamable(t, nodes)
    ensures var o := ApplyBucketIntended(nodes, keys[0], t.entries[keys[0]], tr);
      && o.error.None?
      && TouchesOnly(nodes, o.nodes, BucketRefs(t.entries[keys[0]]))
      && NsRefsRenamable(t, o.nodes)
  {
    var b := t.entries[keys[0]];
    assert forall r :: r in b.refs ==> r in nodes && (nodes[r].Name? || nodes[r].Identifier?);
    var o := ApplyBucketIntended(nodes, keys[0], b, tr);
    ApplyBucketIntendedTotal(nodes, keys[0], b, tr);
    RenamableKept(t, nodes, o.nodes, BucketRefs(b));
  }

  /** As intended, the transform never throws on a table whose namespace references are names or identifiers. */
  lemma {:induction false} ApplyKeysIntendedTotal(nodes: map<NodeId, Node>, t: TableV, keys: seq<string>, tr: NamespaceTransform)
    requires TableValid(t) && (forall k :: k in keys ==> k in t.entries) && NsRefsRenamable(t, nodes)
    ensures ApplyKeysIntended(nodes, t, keys, tr).error.None?
    ensures TouchesOnly(nodes, ApplyKeysIntended(nodes, t, keys, tr).nodes, KeysRefs(t, keys))
    decreases |keys|
  {
    if |keys| > 0 {
      assert keys[0] in keys && forall k :: k in keys[1..] ==> k in keys;
      var b := t.entries[keys[0]];
      var o := ApplyBucketIntended(nodes, keys[0], b, tr);
      ApplyKeysIntendedHead(nodes, t, keys, tr);
      ApplyKeysIntendedTotal(o.nodes, t, keys[1..], tr);
      TouchesOnlyTrans(nodes, o.nodes, ApplyKeysIntended(o.nodes, t, keys[1..], tr).nodes, BucketRefs(b), KeysRefs(t, keys[1..]));
    }
  }

  /** As intended, a clean namespace that does not start with `search` keeps its name, and its bucket is skipped. */
  lemma UntouchedSkippedIntended(tr: NamespaceTransform, nodes: map<NodeId, Node>, ns: QName, b: SymbolNamespace)
    requires Plain(tr.search) && |tr.search.parts.vals| > 0 && Truthful(tr.replace)
    requires Plain(ns) && b.symbols.Valid()
    requires var n := |tr.search.parts.vals|; !(n <= |ns.parts.vals| && ns.parts.vals[..n] == tr.search.parts.vals)
    ensures SkipsIntended(tr, ToString(ns))
    ensures ApplyBucketIntended(nodes, ToString(ns), b, tr) == Outcome(nodes, None)
  {
    FromStringToString(ns);
    ReplaceIntendedList(ns, tr.search.parts, tr.replace.parts, 0);
    ReplaceAtRoot(ns, tr.search.parts, tr.replace.parts);
    KeysAgreeSameName(ns, ns);
  }

  /**
   * As written, renaming `A` to `P\\A` in a table whose bucket `A` holds two references to the
   * namespace renames the first, throws, and leaves the second as it was; as intended, both get the
   * new name and nothing is thrown.
   */
  lemma ThrowCounterexample()
    ensures var tr := NamespaceTransform(FromList(["A"]), FromList(["P", "A"]));
      var nodes := map[1 := Name(["A"], None), 4 := Name(["A"], None)];
      var b := SymbolNamespace([1, 4], EmptyDict());
      && ApplyBucket(nodes, "A", b, tr) == Outcome(nodes[1 := Name(["P", "A"], None)], Some(RuntimeException(CannotRename)))
      && ApplyBucketIntended(nodes, "A", b, tr) == Outcome(map[1 := Name(["P", "A"], None), 4 := Name(["P", "A"], None)], None)
  {
    PrefixRenameExample();
    var tr := NamespaceTransform(FromList(["A"]), FromList(["P", "A"]));
    ThrowExampleSteps(tr, "A", map[1 := Name(["A"], None), 4 := Name(["A"], None)], SymbolNamespace([1, 4], EmptyDict()), Renamed(tr, "A"));
  }

  /** The two steps of the example, for any rename that gives `P\\A` under both readings and skips under neither. */
  lemma ThrowExampleSteps(tr: NamespaceTransform, key: string, nodes: map<NodeId, Node>, b: SymbolNamespace, renamed: QName)
    requires nodes == map[1 := Name(["A"], None), 4 := Name(["A"], None)] && b == SymbolNamespace([1, 4], EmptyDict())
    requires renamed.parts.vals == ["P", "A"] && Renamed(tr, key) == renamed && Renamed(tr, key, Intended) == renamed
    requires !Skips(tr, key) && !SkipsIntended(tr, key)
    ensures ApplyBucket(nodes, key, b, tr) == Outcome(nodes[1 := Name(["P", "A"], None)], Some(RuntimeException(CannotRename)))
    ensures ApplyBucketIntended(nodes, key, b, tr) == Outcome(map[1 := Name(["P", "A"], None), 4 := Name(["P", "A"], None)], None)
  {
    assert RenameNsRef(nodes, 1, renamed) == nodes[1 := Name(["P", "A"], None)];
    TwoRefsRenamed(nodes, renamed);
  }

  /** As intended, both references of the example get the new name. */
  lemma TwoRefsRenamed(nodes: map<NodeId, Node>, renamed: QName)
    requires nodes == map[1 := Name(["A"], None), 4 := Name(["A"], None)] && renamed.parts.vals == ["P", "A"]
    ensures RenameNsRefsIntended(nodes, [1, 4], renamed) == Outcome(map[1 := Name(["P", "A"], None), 4 := Name(["P", "A"], None)], None)
  {
    var n1 := RenameNsRef(nodes, 1, renamed);
    assert n1 == nodes[1 := Name(["P", "A"], None)];
    assert [1, 4][1..] == [4];
    var n2 := RenameNsRef(n1, 4, renamed);
    assert n2 == map[1 := Name(["P", "A"], None), 4 := Name(["P", "A"], None)];
    assert RenameNsRefsIntended(n1, [4], renamed) == RenameNsRefsIntended(n2, [], renamed);
  }

  /** As written, renaming `A` to `P\\A` gives `P\\A`, and the bucket `A` is not skipped. */
  lemma PrefixRenamedAsWritten()
    ensures var tr := NamespaceTransform(FromList(["A"]), FromList(["P", "A"]));
      Renamed(tr, "A") == QName(List(["P", "A"])) && !Skips(tr, "A")
  {
    var tr := NamespaceTransform(FromList(["A"]), FromList(["P", "A"]));
    var a := QName(List(["A"]));
    CleanList(["A"]);
    CleanList(["P", "A"]);
    assert FromString("A") == a;
    RenamedAtRoot(tr, a);
    assert ToString(a) == "A";
    assert Renamed(tr, "A").parts == List(["P", "A"]);
  }

  /** Renaming `A` to `P\\A` gives `P\\A` under both readings, and neither skips the bucket `A`. */
  lemma PrefixRenameExample()
    ensures var tr := NamespaceTransform(FromList(["A"]), FromList(["P", "A"]));
      && Renamed(tr, "A") == QName(List(["P", "A"])) && Renamed(tr, "A", Intended) == Renamed(tr, "A")
      && !Skips(tr, "A") && !SkipsIntended(tr, "A")
  {
    var tr := NamespaceTransform(FromList(["A"]), FromList(["P", "A"]));
    PrefixRenamedAsWritten();
    assert FromString("A") == QName(List(["A"]));
    ReplaceIntendedList(FromString("A"), tr.search.parts, tr.replace.parts, 0);
  }

  /**
   * As written, renaming the namespace `A` to `B` skips its bucket, because no segment of `B` agrees
   * with `A`; as intended, the bucket is renamed.
   */
  lemma SkipCounterexample()
    ensures var tr := NamespaceTransform(FromList(["A"]), FromList(["B"]));
      Skips(tr, "A") && !SkipsIntended(tr, "A") && Renamed(tr, "A").parts.vals == ["B"]
  {
    var tr := NamespaceTransform(FromList(["A"]), FromList(["B"]));
    var a := QName(List(["A"]));
    assert FromString("A") == a;
    RenamedAtRoot(tr, a);
    assert ToString(a) == "A";
    ReplaceIntendedList(a, tr.search.parts, tr.replace.parts, 0);
    GetList(List(["A"]), 0);
    GetList(List(["B"]), 0);
    assert Renamed(tr, "A").parts == List(["B"]);
  }
}
