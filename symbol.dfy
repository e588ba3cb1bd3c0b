/** A declared symbol: the node that declares it and the nodes found to refer to it. */
module Symbols {
  import opened Wrappers
  import opened Ast

  /**
   * `Symbol`: `decl` is typed nullable, though the constructor always sets it; `refs` is the public
   * list the reference pass appends to.
   */
  datatype Symbol = Symbol(decl: Option<NodeId>, refs: seq<NodeId>)

  /** `new Symbol($decl, $refs)`; the references default to none. */
  function NewSymbol(decl: NodeId, refs: seq<NodeId> := []): (s: Symbol)
    ensures s.decl == Some(decl) && s.refs == refs
  {
    Symbol(Some(decl), refs)
  }

  /** `$symbol->refs[] = $node`: the node goes last, the earlier references stay as they were, the declaration is unchanged. */
  function AddRef(s: Symbol, node: NodeId): (r: Symbol)
    ensures r.decl == s.decl && |r.refs| == |s.refs| + 1
    ensures r.refs[..|s.refs|] == s.refs && r.refs[|s.refs|] == node
  {
    s.(refs := s.refs + [node])
  }
}
