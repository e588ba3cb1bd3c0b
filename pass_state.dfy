/** What a finder's traversal changes: its namespace stack and the symbol table of the context it fills. */
module Passes {
  import opened Tables
  import opened NsAwareVisitor

  /** The visitor's `nsStack` and its context's `namespaces`, between two visits. */
  datatype PassState = PassState(stack: Stack, table: TableV)
}
