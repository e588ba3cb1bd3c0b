/**
 * The symbol table that the collector fills and the transforms read: namespace buckets by key. In
 * this context looking a namespace up never inserts one.
 */
module CoreContext {
  import opened Wrappers
  import opened Php
  import opened QNames
  import opened Symbols
  import opened SymbolNamespaces
  import opened Tables
  import opened Trees

  /** The symbol map of each bucket, by namespace key: what `getTree` stores at each namespace. */
  function SymbolMaps(t: TableV): (m: map<string, Dict<Symbol>>)
    ensures m.Keys == t.entries.Keys
    ensures forall k :: k in t.entries ==> m[k] == t.entries[k].symbols
  {
    map k | k in t.entries :: t.entries[k].symbols
  }

  /** `Context`: the `namespaces` map is updated in place by `addNamespace` and `addSymbol`. */
  class Context {
    /** The buckets by namespace key, in the order the keys were first stored. */
    var namespaces: TableV

    /** `new Context($namespaces)`; the map defaults to empty. */
    constructor (namespaces: TableV := EmptyDict())
      ensures this.namespaces == namespaces
    {
      this.namespaces := namespaces;
    }

    /** Its key orders are well formed, as those of a PHP array are. */
    ghost predicate Valid()
      reads this
    {
      TableValid(namespaces)
    }

    /** `addNamespace($name, $symNs)`: stores the bucket under the sanitized name, replacing any bucket there. */
    method AddNamespace(name: string, symNs: SymbolNamespace)
      modifies this
      ensures namespaces == old(namespaces).Put(Sanitize(name), symNs)
      ensures old(Valid()) && symNs.symbols.Valid() ==> Valid()
    {
      namespaces := namespaces.Put(Sanitize(name), symNs);
    }

    /** `getNamespace($ns)`: the bucket at the sanitized key, or null when there is none; nothing is inserted. */
    function GetNamespace(ns: string): (r: Option<SymbolNamespace>)
      reads this
      ensures r.Some? <==> Sanitize(ns) in namespaces.entries
      ensures r.Some? ==> r.value == namespaces.entries[Sanitize(ns)]
    {
      namespaces.Get(Sanitize(ns))
    }

    /**
     * `addSymbol($fqn, $symbol)`: the bucket at the parent's string, created empty after the others
     * when absent, stores the symbol under the last segment; nothing else changes.
     */
    method AddSymbol(fqn: QName, symbol: Symbol)
      requires |fqn.parts.vals| > 0
      modifies this
      ensures namespaces == PutSymbol(old(namespaces), KeyOf(fqn), NameOf(fqn), symbol)
      ensures old(Valid()) ==> Valid()
    {
      var name := GetName(fqn);
      var ns := ToString(GetParent(fqn));
      ghost var t := namespaces;
      if ns !in namespaces.entries {
        namespaces := namespaces.Put(ns, NewSymbolNamespace());
        PutPut(t, ns, NewSymbolNamespace(), NewSymbolNamespace().AddSymbol(name, symbol));
      }
      namespaces := namespaces.Put(ns, namespaces.entries[ns].AddSymbol(name, symbol));
    }

    /** `getSymbol($fqn)`: the symbol stored under the name's parent and last segment, or null; nothing is inserted. */
    function GetSymbol(fqn: QName): (r: Option<Symbol>)
      requires |fqn.parts.vals| > 0
      reads this
      ensures r == LookupSymbol(namespaces, KeyOf(fqn), NameOf(fqn))
    {
      var name := GetName(fqn);
      var ns := ToString(GetParent(fqn));
      if ns !in namespaces.entries then None
      else namespaces.entries[ns].GetSymbol(name)
    }

    /**
     * `getTree()`: the namespaces in the table's order, each grafted into the tree at its segments, its
     * symbols stored at its last segment. The by-reference descent of the inner loop is `Graft`.
     */
    method GetTree() returns (r: Result<Dict<Tree<Symbol>>>)
      requires Valid()
      ensures r == BuildTree(namespaces.order, SymbolMaps(namespaces), EmptyDict())
    {
      var tree: Dict<Tree<Symbol>> := EmptyDict();
      var syms := SymbolMaps(namespaces);
      var keys := namespaces.order;
      var i := 0;
      while i < |keys|
        invariant 0 <= i <= |keys|
        invariant BuildTree(keys, syms, EmptyDict()) == BuildTree(keys[i..], syms, tree)
      {
        assert keys[i..][1..] == keys[i + 1..];
        var qName := FromString(keys[i]);
        match Graft(tree, Path(qName), syms[keys[i]])
        case Threw(e) =>
          return Threw(e);
        case Ok(t) =>
          tree := t;
        i := i + 1;
      }
      assert keys[i..] == [];
      return Ok(tree);
    }
  }

  /** Adding a symbol and reading it back gives it; a second add under the same name replaces the first. */
  lemma AddThenGet(t: TableV, fqn: QName, s1: Symbol, s2: Symbol)
    requires |fqn.parts.vals| > 0
    ensures LookupSymbol(PutSymbol(t, KeyOf(fqn), NameOf(fqn), s1), KeyOf(fqn), NameOf(fqn)) == Some(s1)
    ensures PutSymbol(PutSymbol(t, KeyOf(fqn), NameOf(fqn), s1), KeyOf(fqn), NameOf(fqn), s2) == PutSymbol(t, KeyOf(fqn), NameOf(fqn), s2)
  {
    PutTwice(t, KeyOf(fqn), NameOf(fqn), s1, s2);
  }
}
