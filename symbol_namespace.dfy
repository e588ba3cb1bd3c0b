/** A namespace bucket: the symbols declared in one namespace and the nodes that name the namespace. */
module SymbolNamespaces {
  import opened Wrappers
  import opened Php
  import opened Ast
  import opened Symbols

  /** `SymbolNamespace`: `addRef` appends to `refs`, `addSymbol` stores into `symbols`, `getSymbol` reads it. */
  datatype SymbolNamespace = SymbolNamespace(refs: seq<NodeId>, symbols: Dict<Symbol>) {

    /** `addRef($node)`: the node goes last; the earlier references and the symbols are unchanged. */
    function AddRef(node: NodeId): (b: SymbolNamespace)
      ensures b.symbols == symbols
      ensures |b.refs| == |refs| + 1 && b.refs[..|refs|] == refs && b.refs[|refs|] == node
    {
      this.(refs := refs + [node])
    }

    /**
     * `addSymbol($name, $symbol)`: reading the name afterwards gives the symbol, replacing any earlier
     * one; every other name reads as before, a new name goes last, and the references are unchanged.
     */
    function AddSymbol(name: string, symbol: Symbol): (b: SymbolNamespace)
      ensures b.GetSymbol(name) == Some(symbol)
      ensures forall n :: n != name ==> b.GetSymbol(n) == GetSymbol(n)
      ensures b.symbols.order == if name in symbols.entries then symbols.order else symbols.order + [name]
      ensures b.refs == refs
      ensures symbols.Valid() ==> b.symbols.Valid()
    {
      this.(symbols := symbols.Put(name, symbol))
    }

    /** `getSymbol($name)`: the symbol stored under the name, or null when there is none. */
    function GetSymbol(name: string): (r: Option<Symbol>)
      ensures r.Some? <==> name in symbols.entries
      ensures r.Some? ==> r.value == symbols.entries[name]
    {
      symbols.Get(name)
    }
  }

  /** `new SymbolNamespace($refs, $symbols)`; both default to empty. */
  function NewSymbolNamespace(refs: seq<NodeId> := [], symbols: Dict<Symbol> := EmptyDict()): (b: SymbolNamespace)
    ensures b.refs == refs && b.symbols == symbols
  {
    SymbolNamespace(refs, symbols)
  }

  /** A second store under the same name replaces the first. */
  lemma {:induction false} AddSymbolTwice(b: SymbolNamespace, name: string, s1: Symbol, s2: Symbol)
    ensures b.AddSymbol(name, s1).AddSymbol(name, s2) == b.AddSymbol(name, s2)
  {
    var d := b.symbols;
    assert d.Put(name, s1).Put(name, s2).entries == d.Put(name, s2).entries;
  }
}
