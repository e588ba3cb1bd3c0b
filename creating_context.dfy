/**
 * The second symbol table of the repository: the same buckets by key, but looking a namespace up
 * creates its bucket when there is none, and every access goes through that lookup.
 */
module CreatingContext {
  import opened Wrappers
  import opened Php
  import opened QNames
  import opened Symbols
  import opened SymbolNamespaces
  import opened Tables

  /** `$namespaces[$key] = $namespaces[$key] ?? new SymbolNamespace()`: a missing bucket is created empty after the others. */
  function WithBucket(t: TableV, key: string): (r: TableV)
    ensures key in t.entries ==> r == t
    ensures key !in t.entries ==> r.order == t.order + [key] && r.entries == t.entries[key := NewSymbolNamespace()]
    ensures key in r.entries && r.entries[key] == BucketAt(t, key)
    ensures TableValid(t) ==> TableValid(r)
  {
    var r := t.Put(key, BucketAt(t, key));
    assert key in t.entries ==> r.entries == t.entries;
    r
  }

  /** The key under which this context files a symbol: its parent's string, sanitized. */
  function SymbolKey(fqn: QName): string {
    Sanitize(KeyOf(fqn))
  }

  /** `Context`: `namespaces` changes on every access that finds a bucket missing. */
  class Context {
    var namespaces: TableV

    /** `new Context($namespaces)`; the map defaults to empty. */
    constructor (namespaces: TableV := EmptyDict())
      ensures this.namespaces == namespaces
    {
      this.namespaces := namespaces;
    }

    ghost predicate Valid()
      reads this
    {
      TableValid(namespaces)
    }

    /** `addNamespace($name, $symNs)`: stores the bucket under the sanitized name, replacing any bucket there. */
    method AddNamespace(name: string, symNs: SymbolNamespace)
      modifies this
      ensures namespaces == old(namespaces).Put(Sanitize(name), symNs)
      ensures old(Valid()) && symNs.symbols.Valid() ==> Valid()
    {
      namespaces := namespaces.Put(Sanitize(name), symNs);
    }

    /** `getNamespace($ns)`: the bucket at the sanitized key, which is created empty first when it is missing. */
    method GetNamespace(ns: string) returns (r: SymbolNamespace)
      modifies this
      ensures r == BucketAt(old(namespaces), Sanitize(ns))
      ensures namespaces == WithBucket(old(namespaces), Sanitize(ns))
      ensures old(Valid()) ==> Valid()
    {
      var key := Sanitize(ns);
      namespaces := namespaces.Put(key, if key in namespaces.entries then namespaces.entries[key] else NewSymbolNamespace());
      r := namespaces.entries[key];
    }

    /** `addSymbol($fqn, $symbol)`: the symbol goes into the bucket `getNamespace` returns for the parent's string. */
    method AddSymbol(fqn: QName, symbol: Symbol)
      requires |fqn.parts.vals| > 0
      modifies this
      ensures namespaces == PutSymbol(old(namespaces), SymbolKey(fqn), NameOf(fqn), symbol)
      ensures old(Valid()) ==> Valid()
    {
      var name := GetName(fqn);
      var ns := ToString(GetParent(fqn));
      ghost var t := namespaces;
      var symNs := GetNamespace(ns);
      LookupThenPut(t, Sanitize(ns), name, symbol);
      namespaces := namespaces.Put(Sanitize(ns), symNs.AddSymbol(name, symbol));
    }

    /** `getSymbol($fqn)`: the symbol under the name's parent and last segment, or null; the parent's bucket is left behind. */
    method GetSymbol(fqn: QName) returns (r: Option<Symbol>)
      requires |fqn.parts.vals| > 0
      modifies this
      ensures r == LookupSymbol(old(namespaces), SymbolKey(fqn), NameOf(fqn))
      ensures namespaces == WithBucket(old(namespaces), SymbolKey(fqn))
      ensures old(Valid()) ==> Valid()
    {
      var name := GetName(fqn);
      var ns := ToString(GetParent(fqn));
      var symNs := GetNamespace(ns);
      r := symNs.GetSymbol(name);
    }
  }

  /**
   * Creating a bucket never adds a symbol: every lookup reads as before. Only the key is added, at
   * the end, and only when it was missing.
   */
  lemma WithBucketAddsNoSymbol(t: TableV, key: string, key': string, name: string)
    ensures LookupSymbol(WithBucket(t, key), key', name) == LookupSymbol(t, key', name)
    ensures WithBucket(t, key).entries.Keys == t.entries.Keys + {key}
    ensures WithBucket(WithBucket(t, key), key) == WithBucket(t, key)
  {
  }

  /** Looking a name up and then storing it gives the same table as storing it at once. */
  lemma LookupThenPut(t: TableV, key: string, name: string, s: Symbol)
    ensures PutSymbol(WithBucket(t, key), key, name, s) == PutSymbol(t, key, name, s)
  {
    var b := BucketAt(t, key);
    if key !in t.entries {
      assert WithBucket(t, key) == t.Put(key, b);
      PutPut(t, key, b, b.AddSymbol(name, s));
    }
  }

  /** Adding a symbol and then looking it up gives it back, and leaves the table as the add left it. */
  lemma AddThenGet(t: TableV, fqn: QName, s: Symbol)
    requires |fqn.parts.vals| > 0
    ensures var t' := PutSymbol(t, SymbolKey(fqn), NameOf(fqn), s);
      LookupSymbol(t', SymbolKey(fqn), NameOf(fqn)) == Some(s) && WithBucket(t', SymbolKey(fqn)) == t'
  {
  }

  /** The string of separator-free, non-empty segments neither starts nor ends with a separator. */
  lemma {:induction false} ImplodeUntrimmed(vs: seq<string>)
    requires forall v :: v in vs ==> |v| > 0 && SEP !in v
    ensures var s := Implode(vs); |s| == 0 || (s[0] != SEP && s[|s| - 1] != SEP)
  {
    if |vs| > 1 {
      ImplodeUntrimmed(vs[1..]);
      var s := Implode(vs);
      assert s == vs[0] + [SEP] + Implode(vs[1..]);
      assert s[0] == vs[0][0];
      assert vs[1] in vs[1..];
      assert |Implode(vs[1..])| > 0 by { ImplodeLength(vs[1..]); }
    } else if |vs| == 1 {
      assert vs[0] in vs;
    }
  }

  /** A join of at least one non-empty value is non-empty. */
  lemma {:induction false} ImplodeLength(vs: seq<string>)
    requires |vs| > 0 && forall v :: v in vs ==> |v| > 0
    ensures |Implode(vs)| >= |vs[0]| > 0
  {
    assert vs[0] in vs;
  }

  /**
   * For a name of clean segments, sanitizing the key changes nothing: both contexts file the symbol
   * under the same key.
   */
  lemma SymbolKeyOfPlain(fqn: QName)
    requires Plain(fqn)
    ensures SymbolKey(fqn) == KeyOf(fqn)
  {
    var vals := fqn.parts.vals;
    if |vals| > 1 {
      var pv := vals[..|vals| - 1];
      assert forall v :: v in pv ==> v in vals;
      assert GetParent(fqn).parts == List(pv);
      ImplodeUntrimmed(pv);
    }
  }
}
