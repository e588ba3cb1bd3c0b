/**
 * The symbol table as a value: what a `Context` holds in its `namespaces` field, buckets by key. The
 * context classes are proved against these functions, and so are the passes that fill the table and
 * the transform that reads it.
 */
module Tables {
  import opened Wrappers
  import opened Php
  import opened QNames
  import opened Ast
  import opened Symbols
  import opened SymbolNamespaces

  /** The table: buckets by namespace key, in the order the keys were first stored. */
  type TableV = Dict<SymbolNamespace>

  /** The table's key order and every bucket's name order list each key exactly once. */
  ghost predicate TableValid(t: TableV) {
    t.Valid() && forall k :: k in t.entries ==> t.entries[k].symbols.Valid()
  }

  /** `sanitizeFqNs`: a namespace string without leading or trailing backslashes. */
  function Sanitize(ns: string): (key: string)
    ensures |key| > 0 ==> key[0] != SEP && key[|key| - 1] != SEP
    ensures (|ns| == 0 || (ns[0] != SEP && ns[|ns| - 1] != SEP)) ==> key == ns
  {
    Trim(ns)
  }

  /** The key of the bucket that holds the symbol `fqn`: its parent namespace as a string. */
  function KeyOf(fqn: QName): string {
    ToString(GetParent(fqn))
  }

  /** The name under which the bucket holds the symbol `fqn`: its last segment. */
  function NameOf(fqn: QName): string
    requires |fqn.parts.vals| > 0
  {
    GetName(fqn)
  }

  /** The bucket at `key`, or a fresh empty one when there is none. */
  function BucketAt(t: TableV, key: string): (b: SymbolNamespace)
    ensures key !in t.entries ==> b == NewSymbolNamespace()
    ensures key in t.entries ==> b == t.entries[key]
  {
    if key in t.entries then t.entries[key] else NewSymbolNamespace()
  }

  /** Stores `s` under `name` in the bucket at `key`, creating the bucket after the others if it is new. */
  function PutSymbol(t: TableV, key: string, name: string, s: Symbol): (r: TableV)
    ensures key in r.entries && r.entries[key].GetSymbol(name) == Some(s)
    ensures key in t.entries ==> r.order == t.order && r.entries[key].refs == t.entries[key].refs
    ensures key !in t.entries ==> r.order == t.order + [key] && r.entries[key].refs == []
    ensures forall k :: k in t.entries && k != key ==> k in r.entries && r.entries[k] == t.entries[k]
    ensures r.entries.Keys == t.entries.Keys + {key}
    ensures forall n :: n != name ==> r.entries[key].GetSymbol(n) == BucketAt(t, key).GetSymbol(n)
    ensures TableValid(t) ==> TableValid(r)
  {
    t.Put(key, BucketAt(t, key).AddSymbol(name, s))
  }

  /** The symbol stored under `name` in the bucket at `key`, or null when the bucket or the name is absent. */
  function LookupSymbol(t: TableV, key: string, name: string): (r: Option<Symbol>)
    ensures r.Some? <==> key in t.entries && name in t.entries[key].symbols.entries
    ensures r.Some? ==> r.value == t.entries[key].symbols.entries[name]
  {
    if key in t.entries then t.entries[key].GetSymbol(name) else None
  }

  /** Storing a symbol and reading it back gives it; every other place reads as before. */
  lemma PutThenLookup(t: TableV, key: string, name: string, s: Symbol, key': string, name': string)
    ensures LookupSymbol(PutSymbol(t, key, name, s), key, name) == Some(s)
    ensures key' != key || name' != name ==> LookupSymbol(PutSymbol(t, key, name, s), key', name') == LookupSymbol(t, key', name')
  {
  }

  /** A second store under the same place replaces the first: the last write wins. */
  lemma PutTwice(t: TableV, key: string, name: string, s1: Symbol, s2: Symbol)
    ensures PutSymbol(PutSymbol(t, key, name, s1), key, name, s2) == PutSymbol(t, key, name, s2)
  {
    AddSymbolTwice(BucketAt(t, key), name, s1, s2);
    assert BucketAt(PutSymbol(t, key, name, s1), key) == BucketAt(t, key).AddSymbol(name, s1);
  }

  /** `$symbol->refs[] = $node` on the symbol stored at `key` and `name`. */
  function AppendSymbolRef(t: TableV, key: string, name: string, id: NodeId): (r: TableV)
    requires key in t.entries && name in t.entries[key].symbols.entries
    ensures r.order == t.order && r.entries.Keys == t.entries.Keys
    ensures forall k :: k in t.entries ==> r.entries[k].refs == t.entries[k].refs
    ensures forall k :: k in t.entries ==> r.entries[k].symbols.order == t.entries[k].symbols.order
    ensures forall k :: k in t.entries ==> r.entries[k].symbols.entries.Keys == t.entries[k].symbols.entries.Keys
    ensures LookupSymbol(r, key, name) == Some(AddRef(t.entries[key].symbols.entries[name], id))
    ensures forall k, n :: (k != key || n != name) ==> LookupSymbol(r, k, n) == LookupSymbol(t, k, n)
    ensures TableValid(t) ==> TableValid(r)
  {
    var b := t.entries[key];
    t.Put(key, b.AddSymbol(name, AddRef(b.symbols.entries[name], id)))
  }

  /** `$ns->addRef($node)` on the bucket at `key`. */
  function AppendNamespaceRef(t: TableV, key: string, id: NodeId): (r: TableV)
    requires key in t.entries
    ensures r.order == t.order && r.entries.Keys == t.entries.Keys
    ensures r.entries[key] == t.entries[key].AddRef(id)
    ensures forall k :: k in t.entries && k != key ==> r.entries[k] == t.entries[k]
    ensures TableValid(t) ==> TableValid(r)
  {
    t.Put(key, t.entries[key].AddRef(id))
  }
}
