# php-cage: the symbol table and namespace rename engine, in Dafny

php-cage moves every namespace of a PHP code base under a common prefix, for example `Foo\Bar` to
`Vendor\Foo\Bar`. It does this by rewriting the parsed syntax trees in place. This project models
that engine and proves properties of the model:

- **Qualified names** (`QNames`, with the PHP runtime it relies on in `Php`). A name is an array of
  segments whose keys survive `array_filter`. The model covers construction, parent and name,
  `isEqualTo`, the `indexOf` loop, root-anchored `replace`, `merge`, `fromNsAndName` and the string
  round trip.
- **The symbol table.**
  - A `Symbol` is a datatype: the declaring node plus an ordered list of reference nodes.
  - A namespace bucket (`SymbolNamespace`) is a datatype: its symbols by name, plus the nodes that
    name the namespace.
  - The table (`Tables`) holds the buckets by sanitized key, in insertion order.
  - Both `Context` classes of the repository are modelled. `CoreContext.Context` never inserts on
    lookup. `CreatingContext.Context` creates an empty bucket on every lookup. Each class holds the
    table in its `namespaces` field and is proved against the functions of `Tables`.
  - `getTree` is modelled with its by-reference descent (`Trees`).
- **The collector.**
  - Syntax tree nodes live in an arena keyed by node identity (`Ast`). The traverser's visiting
    order is the pure schedule `Walk`.
  - The namespace-aware visitor (`NsAwareVisitor`) keeps the namespace stack and resolves names.
  - The declaration finder and the reference finder are classes. Each has a `Traverse` loop proved
    equal to a fold (`DeclRun`, `RefRun`) over the schedule.
  - `ContextBuilder` and `Cage` run the passes in order over one shared context.
- **The transforms.**
  - `NamespaceTransform.apply` is modelled as nested loops over the buckets that rewrite an `Arena`
    of nodes in place.
  - `TransformList.apply` runs its transforms in order.
  - `CageCommands` covers the command's collection order, its planning of one prefixing rename per
    top-level namespace, and the application of the plan.

Four behaviours of the code are modelled as written, with a corrected variant beside each (see
Findings):

- `isEqualTo` is inverted.
- The namespace transform throws after the first reference of every bucket it processes.
- `indexOf` returns an array key where `replace` needs a position.
- The command runs each file's reference pass before the later files' declaration passes.

Neither finder calls the base class's `leaveNode`, so during a pass the namespace stack is never
popped. The model keeps this (`NoPopGrows`). It does no harm: PHP namespace statements do not nest,
and the namespace in front is the statement most recently entered (`LeftNamespaceStaysCurrent`).

Two places where the command's order matters:

- **Collection order.** The command runs each source file's declaration pass and then its
  reference pass, one file at a time (src/Cli/CageCommand.php:83-92). So a file's uses of a class
  declared in a later file are never recorded. `CageCommands.CollectSources`, `Execute` and
  `CommandOutcome` follow the code. `CollectSourcesIntended` runs every declaration pass first,
  as the include directories already get only their reference pass after every source file's
  declaration pass (src/Cli/CageCommand.php:94-108).
- **Bucket order.** The code visits the buckets in the table's insertion order and stops at a
  throw. The model keeps that order.

## Model

| member | source | states |
|---|---|---|
| Php.Filter | src/Core/QName.php:30 | `array_filter` keeps only truthy strings (not `""`, not `"0"`); every kept value was in the input and every kept key was one of its keys; an all-truthy array comes back unchanged, keys included |
| Php.KeepTruthy | src/Core/QName.php:30 | reference definition of what filtering keeps: a value is in the result exactly when it is in the input and truthy |
| Php.FilterKeepsTruthy | src/Core/QName.php:30 | the values `array_filter` keeps are exactly the truthy ones, in order, whatever the keys |
| Php.FilterValues | src/Core/QName.php:30 | two arrays with the same values filter to the same values, however they are keyed |
| Php.FilterConcat | src/Core/QName.php:163-166 | filtering a concatenation gives the filtered parts one after the other, so the order of segments is kept |
| Php.FilterSingle | src/Core/QName.php:192-197 | a one-segment list keeps its segment exactly when the segment is truthy |
| Php.FilterKeysIndex | src/Core/QName.php:30 | each surviving entry keeps the key of its original position, so keys have gaps where falsy segments were dropped |
| Php.FilterKeysIncrease | src/Core/QName.php:30 | after filtering, the keys still increase strictly |
| Php.GetList | src/Core/QName.php:73 | on a PHP list, `$parts[$k] ?? null` reads the value at position `k` |
| Php.Dict.Put | src/Core/Context.php:46 | storing under a new key appends the key to the order; storing under a present key keeps its place; the order stays duplicate-free |
| Php.PutPut | src/Core/Context.php:113-114 | a second store under the same key replaces the first and leaves the key where the first put it |
| Php.PutThenGet | src/Core/Context.php:44-64 | after a store under `k`, reading `k` gives the stored value and every other key reads as before |
| Php.Explode | src/Core/QName.php:177-180 | `explode('\\', s)` gives at least one piece, no piece contains a separator, and a string without one is its own only piece |
| Php.Implode | src/Core/QName.php:148-151 | `implode('\\', vs)` of one value is that value and of none is `""`; otherwise the result starts with the first value, a separator follows it when there are more, and its length is the values' total length plus one separator between each two |
| Php.ExplodeImplode | src/Core/QName.php:148-180 | exploding the join of at least one separator-free value gives the values back |
| Php.ImplodeExplode | src/Core/QName.php:148-180 | joining the pieces of a string gives the string back |
| Php.TrimLeft | src/Core/Context.php:149-152 | `ltrim(s, '\\')` is a suffix of `s`, everything it removes is a separator, and it does not start with one |
| Php.TrimRight | src/Core/Context.php:149-152 | `rtrim(s, '\\')` is a prefix of `s`, everything it removes is a separator, and it does not end with one |
| Php.Trim | src/Core/Context.php:149-152 | the trimmed string neither starts nor ends with a separator, and a string that already does neither is unchanged |
| Php.TrimIsInfix | src/Core/Context.php:149-152 | trimming removes exactly a run of separators at each end and keeps the middle |
| Php.TrimIdempotent | src/Core/Context.php:149-152 | trimming twice is trimming once |
| Php.Splice | src/Core/QName.php:137 | `array_splice` within bounds is prefix + replacement + suffix; an offset past the end appends; the result's length is given in every case |
| QNames.Make | src/Core/QName.php:28-31 | a constructed name has only truthy segments, each from the input; input with only truthy segments is kept with its keys |
| QNames.FromList | src/Core/QName.php:28-31 | a name built from a list is truthful and keeps only values of the list, and a list of truthy segments is kept as the list |
| QNames.FromListFilters | src/Core/QName.php:28-31 | building from a concatenation of segment lists gives the segments of the two parts one after the other, so construction keeps order |
| QNames.MakeIdempotent | src/Core/QName.php:28-31 | constructing a name from a name's segments gives the same name |
| QNames.CleanList | src/Core/QName.php:28-31 | a list of truthy, separator-free segments becomes a plain name with exactly those segments |
| QNames.GetParent | src/Core/QName.php:38-45 | with two or more segments, the parent is all but the last, renumbered; otherwise it is the empty name |
| QNames.GetName | src/Core/QName.php:52-55 | the last segment; the caller must supply a non-empty name, as the PHP code raises a type error otherwise |
| QNames.ParentAndName | src/Core/QName.php:38-55 | the parent's segments followed by the name give the segments back |
| QNames.IsEqualTo | src/Core/QName.php:66-79 | the loop with its early return computes, as written, "same length and no key holds the same segment in both" |
| QNames.NoSegmentAgreesSelf | src/Core/QName.php:66-79 | as written, a name equals itself exactly when it is empty |
| QNames.NoSegmentAgreesLength | src/Core/QName.php:68-70 | names of different lengths are never equal |
| QNames.IsEqualToIntended | src/Core/QName.php:66-79 | the corrected loop (return false at the first differing segment) computes "same length and every key holds the same segment" |
| QNames.KeysAgreeSameName | src/Core/QName.php:66-79 | on list-keyed names, the corrected comparison holds exactly when the segments are the same in order, and every name equals itself |
| QNames.FirstMatch | src/Core/QName.php:100-111 | the first position at or after `s` holding `v`, or the length; nothing before it holds `v` |
| QNames.IndexOf | src/Core/QName.php:90-114 | the loop returns -1 for an empty search. Otherwise it returns the key of the first segment equal to `search[0]` when the whole of `search` follows from there, and -1 when it does not; a later occurrence is never tried |
| QNames.RunAtList | src/Core/QName.php:100-113 | matching `search` entry by entry at position `p` is the slice of the segments at `p` being equal to `search` |
| QNames.FirstRunKeyList | src/Core/QName.php:90-114 | on a list name, `indexOf` is the first position of `search[0]` when the run is there, and nothing else |
| QNames.FirstRunKeyRoot | src/Core/QName.php:90-114 | on a list name, `indexOf` is 0 exactly when `search` is a prefix of the segments |
| QNames.Replace | src/Core/QName.php:127-141 | `replace` as written yields a truthful name (its construction filters); what it splices is stated by `ReplaceList` and `ReplaceAtRoot` |
| QNames.ReplaceList | src/Core/QName.php:127-141 | on a list name, when the rule allows, the result is the segments before the run, `replace`, then the segments after; otherwise the name is unchanged |
| QNames.ReplaceAtRoot | src/Core/QName.php:127-141 | with index 0, the name is spliced exactly when `search` is its prefix, giving `replace` followed by the rest |
| QNames.FirstRunPos | src/Core/QName.php:90-114 | the documented `indexOf`: a 0-based position at which `search` runs, the first match of `search[0]`, or -1 |
| QNames.FirstRunPosList | src/Core/QName.php:90-114 | on list names the position and the key coincide |
| QNames.ReplaceIntended | src/Core/QName.php:127-141 | the corrected `replace` yields a truthful name; what it splices is stated by `ReplaceIntendedSplices` |
| QNames.ReplaceIntendedSplices | src/Core/QName.php:127-141 | on any truthful name, the corrected `replace` replaces exactly the run it found with `replace`, or leaves the name unchanged |
| QNames.ReplaceIntendedList | src/Core/QName.php:127-141 | on list names the corrected and the written `replace` agree |
| QNames.IndexOfKeyCounterexample | src/Core/QName.php:127-141 | `fromString('\\A\\B')` keeps keys 1 and 2. `indexOf(['A'])` returns 1 although the run is at position 0, and `replace(['A'], ['X'])` gives `A\\X` instead of `X\\B` |
| QNames.ToString | src/Core/QName.php:148-151 | `toString` of a truthful name joins its segments with backslashes |
| QNames.FromString | src/Core/QName.php:177-180 | `fromString` builds a truthful name whose segments are pieces of the string and hold no separator; when no piece is empty or `"0"`, the name is the list of the pieces, keyed by position |
| QNames.FromStringToString | src/Core/QName.php:148-180 | `fromString(toString(q)) == q` for names of separator-free truthy segments keyed by position |
| QNames.ToStringFromString | src/Core/QName.php:148-180 | `toString(fromString(s)) == s` when no piece of `s` is empty or `"0"` |
| QNames.Merge | src/Core/QName.php:163-166 | `merge(a, b)` has `a`'s segments then `b`'s, renumbered |
| QNames.FromNsAndName | src/Core/QName.php:192-197 | the filtered namespace segments followed by the name, which is dropped when falsy |
| QNames.SplitJoin | src/Core/QName.php:192-197 | `fromNsAndName(parent, name)` of a non-empty truthful name gives its segments back |
| QNameExamples.ConstructExample | tests/Func/QNameTest.php:10-15 | `new QName(['Test', 'Ns'])` keeps both segments |
| QNameExamples.ParentAndNameExample | tests/Func/QNameTest.php:17-44 | for `Foo\Bar\Baz` the parent is `['Foo', 'Bar']` and the name `Baz` |
| QNameExamples.FromNsAndNameExample | tests/Func/QNameTest.php:53-58 | `fromNsAndName(['Foo', 'Bar'], 'Baz')` is `['Foo', 'Bar', 'Baz']` |
| QNameExamples.ImplodeExample | tests/Func/QNameTest.php:25-30 | the three segments join to `Foo\Bar\Baz` |
| QNameExamples.ToStringExample | tests/Func/QNameTest.php:25-37 | `toString` of `['Foo', 'Bar', 'Baz']` is `Foo\Bar\Baz` |
| QNameExamples.IndexOfFirstLastExample | tests/Func/QNameTest.php:60-82 | `indexOf(['Foo'])` is 0 and `indexOf(['Baz'])` is 2 |
| QNameExamples.IndexOfMiddleExample | tests/Func/QNameTest.php:68-90 | `indexOf(['Bar'])` and `indexOf(['Bar', 'Baz'])` are both 1 |
| QNameExamples.IndexOfAbsentExample | tests/Func/QNameTest.php:92-98 | `indexOf(['Lorem'])` is -1 |
| QNameExamples.IndexOfBrokenRunExample | tests/Func/QNameTest.php:100-106 | `indexOf(['Bar', 'Damn'])` on `Foo\Bar\Baz\Damn` is -1: no retry after the run breaks |
| Symbols.NewSymbol | src/Core/Context/Symbol.php:34-38 | a new symbol stores the declaring node, so its declaration is present, and the given references, none by default |
| Symbols.AddRef | src/Core/Visitors/ReferenceFinder.php:67 | `$symbol->refs[] = $node`: the node goes last, earlier references and the declaration are unchanged |
| SymbolNamespaces.SymbolNamespace.AddRef | src/Context/SymbolNamespace.php:51-54 | the node goes last; earlier references and the symbols are unchanged |
| SymbolNamespaces.SymbolNamespace.AddSymbol | src/Context/SymbolNamespace.php:64-67 | afterwards `getSymbol(name)` is the symbol, other names read as before, a new name goes last in the order, and the references are unchanged |
| SymbolNamespaces.SymbolNamespace.GetSymbol | src/Context/SymbolNamespace.php:78-81 | the symbol stored under the name, or null exactly when there is none |
| SymbolNamespaces.NewSymbolNamespace | src/Context/SymbolNamespace.php:38-42 | stores the given references and symbols, both empty by default |
| SymbolNamespaces.AddSymbolTwice | src/Context/SymbolNamespace.php:64-67 | a second `addSymbol` under the same name replaces the first |
| Tables.Sanitize | src/Core/Context.php:149-152 | the key starts and ends with no backslash, and a string that already does neither is its own key |
| Tables.BucketAt | src/Core/Context.php:113 | the bucket at the key, or a fresh empty one when absent (`?? new SymbolNamespace()`) |
| Tables.PutSymbol | src/Core/Context.php:108-115 | the symbol is readable at the key and name. An existing bucket keeps its place and references; a missing bucket is created empty, last. Other buckets and names are unchanged |
| Tables.LookupSymbol | src/Core/Context.php:126-136 | the stored symbol, or null exactly when the bucket or the name is absent |
| Tables.PutThenLookup | src/Core/Context.php:108-136 | storing then reading the same place gives the symbol; every other place reads as before |
| Tables.PutTwice | src/Core/Context.php:108-136 | the last write under the same place wins |
| Tables.AppendSymbolRef | src/Core/Visitors/ReferenceFinder.php:66-68 | appends the node to the one symbol's references; keys, orders, bucket references and every other symbol are unchanged |
| Tables.AppendNamespaceRef | src/Core/Visitors/ReferenceFinder.php:69-75 | appends the node to the one bucket's references; every other bucket and the order are unchanged |
| Trees.Leaves | src/Core/Context.php:90 | the symbols of a bucket as tree entries, by name, in order |
| Trees.Path | src/Core/Context.php:78-83 | the segments the cursor follows, read by key `0..count-1`; for a list name, its segments |
| Trees.PathSegments | src/Core/Context.php:78-83 | every segment the cursor follows is a segment of the namespace, or the empty string for a gap |
| Trees.BuildTree | src/Core/Context.php:73-98 | `getTree` throws nothing but PHP's type error, and a successful build keeps every key it started with |
| Trees.TopKeysHas | src/Core/Context.php:78-93 | every namespace already in the tree keeps its key, each namespace's first segment becomes a top-level key, and a new top-level key holds no separator |
| Trees.Graft | src/Core/Context.php:81-94 | one namespace's descent: an empty path changes nothing; otherwise the first segment is present afterwards, added last if new, and no other top-level key appears |
| Trees.GraftSetsLeaf | src/Core/Context.php:85-93 | after a successful graft, the entry at the namespace's last segment is its symbol array |
| Trees.BuildTreeTopKeys | src/Core/Context.php:73-98 | the top-level keys are the first segments of the namespaces, each once, in first-occurrence order; the global namespace adds none |
| Trees.ShorterOverwrites | src/Core/Context.php:85-93 | a later namespace that is a proper prefix of an earlier one overwrites the earlier subtree with its symbols |
| Trees.GraftIntoSymbol | src/Core/Context.php:85-92 | descending into an entry that holds a symbol object throws PHP's type error |
| CoreContext.Context.constructor | src/Core/Context.php:31-34 | stores the given table, empty by default |
| CoreContext.Context.AddNamespace | src/Core/Context.php:44-47 | stores the bucket under the sanitized name, replacing any bucket there |
| CoreContext.Context.GetNamespace | src/Core/Context.php:59-64 | the bucket at the sanitized key, or null exactly when absent; reads only |
| CoreContext.Context.AddSymbol | src/Core/Context.php:108-115 | the new table is `PutSymbol` at the parent's string and the last segment, and it stays well formed |
| CoreContext.Context.GetSymbol | src/Core/Context.php:126-136 | `LookupSymbol` at the parent's string and the last segment; reads only, never creates a bucket |
| CoreContext.Context.GetTree | src/Core/Context.php:73-98 | the nested loops compute `BuildTree` over the table's keys in order, starting empty |
| CoreContext.AddThenGet | src/Core/Context.php:108-136 | `addSymbol(f, s)` then `getSymbol(f)` gives `s`, and a second `addSymbol(f, ...)` replaces the first |
| CreatingContext.WithBucket | src/Context/Context.php:61 | an existing bucket leaves the table as it was; a missing one is created empty and last |
| CreatingContext.Context.constructor | src/Context/Context.php:30-33 | stores the given table, empty by default |
| CreatingContext.Context.AddNamespace | src/Context/Context.php:43-46 | stores the bucket under the sanitized name, replacing any bucket there |
| CreatingContext.Context.GetNamespace | src/Context/Context.php:57-62 | returns the bucket at the sanitized key; a missing one is created empty and inserted |
| CreatingContext.Context.AddSymbol | src/Context/Context.php:72-78 | stores through `getNamespace`, so under the sanitized parent string |
| CreatingContext.Context.GetSymbol | src/Context/Context.php:89-95 | returns what the table held, and leaves an empty bucket for the parent behind |
| CreatingContext.WithBucketAddsNoSymbol | src/Context/Context.php:89-95 | the bucket a lookup leaves behind adds no symbol anywhere, adds at most its key, and a second lookup adds nothing |
| CreatingContext.LookupThenPut | src/Context/Context.php:72-78 | creating the bucket and then storing equals storing straight away |
| CreatingContext.AddThenGet | src/Context/Context.php:72-95 | `addSymbol(f, s)` then `getSymbol(f)` gives `s` and leaves the table as the add left it |
| CreatingContext.SymbolKeyOfPlain | src/Context/Context.php:108-111 | for names of clean segments the sanitized key is the unsanitized one, so both contexts file a symbol in the same place |
| Ast.WalkNode | src/Core/ContextBuilder.php:71 | a node's traversal enters it first and leaves it last, and visits only nodes of the tree numbered at most its own (sub-nodes are numbered below their parents) |
| Ast.WalkNodes | src/Core/ContextBuilder.php:71 | a statement list's traversal visits only nodes of the tree numbered below the bound, and nothing for an empty list |
| Ast.Walk | src/Core/ContextBuilder.php:71 | the traversal of a statement list visits only nodes of the tree |
| Ast.WalkNodesConcat | src/Core/ContextBuilder.php:71 | traversing a concatenated statement list traverses the parts one after the other |
| NsAwareVisitor.NsStackVisitor.BeforeTraverse | src/Visitors/AbstractNsAwareVisitor.php:28-31 | the stack is reset to empty |
| NsAwareVisitor.NsStackVisitor.EnterNode | src/Visitors/AbstractNsAwareVisitor.php:38-43 | entering a namespace statement puts its segments at the front; any other node leaves the stack alone |
| NsAwareVisitor.NsStackVisitor.LeaveNode | src/Visitors/AbstractNsAwareVisitor.php:50-55 | leaving a namespace statement drops the front entry; any other node leaves the stack alone |
| NsAwareVisitor.NsStackVisitor.ResolveQualifiedName | src/Visitors/AbstractNsAwareVisitor.php:67-83 | a name is returned exactly for names and identifiers; an identifier gets the current namespace's segments followed by its own; the stack is not changed |
| NsAwareVisitor.ResolveSegments | src/Visitors/AbstractNsAwareVisitor.php:67-83 | a name node resolves to its resolved (or own) segments; an identifier to `nsStack[0] ?? []` plus its name; any other node to null |
| NsAwareVisitor.Resolve | src/Visitors/AbstractNsAwareVisitor.php:67-83 | a name comes back exactly for name and identifier nodes, and it is truthful |
| NsAwareVisitor.BalancedNode | src/Visitors/AbstractNsAwareVisitor.php:38-55 | with the base class's popping, the traversal of any node leaves the stack as it found it |
| NsAwareVisitor.BalancedNodes | src/Visitors/AbstractNsAwareVisitor.php:38-55 | the same for a statement list |
| NsAwareVisitor.NoPopGrows | src/Visitors/DeclarationFinder.php:50-58 | without popping, the stack after any visits is the namespaces entered, most recent first, before the stack it started from |
| NsAwareVisitor.LeftNamespaceStaysCurrent | src/Core/Visitors/ReferenceFinder.php:59-76 | after a namespace statement with no nested namespace, the non-popping stack still has it in front, while the popping stack is restored |
| DeclarationFinders.DeclFqn | src/Visitors/DeclarationFinder.php:53 | a declaration is filed under a non-empty qualified name |
| DeclarationFinders.DeclarationFinder.constructor | src/Visitors/DeclarationFinder.php:30-33 | holds the given context; empty stack |
| DeclarationFinders.DeclarationFinder.BeforeTraverse | src/Visitors/DeclarationFinder.php:40-43 | the inherited reset of the stack |
| DeclarationFinders.DeclarationFinder.EnterNode | src/Visitors/AbstractNsAwareVisitor.php:38-43 | the inherited push of a namespace statement's segments |
| DeclarationFinders.DeclarationFinder.LeaveNode | src/Visitors/DeclarationFinder.php:50-58 | the context's table becomes the declaration step's: a named class-like or function is filed; the stack is not popped |
| DeclarationFinders.DeclarationFinder.Traverse | src/Core/ContextBuilder.php:69-74 | reset, then every visit in order: the stack and table end as `DeclRun` over `Walk` from an empty stack |
| DeclarationFinders.DeclLeave | src/Visitors/DeclarationFinder.php:50-58 | leaving a named class-like or function files a fresh symbol with that declaration and no references, under the current namespace plus the name; nothing else changes; other nodes, namespace statements included, change nothing |
| DeclarationFinders.DeclStep | src/Visitors/DeclarationFinder.php:50-58 | one visit of the declaration pass pushes a namespace statement's segments on entry and otherwise keeps the stack; it only adds buckets, keeping the order of the existing ones |
| DeclarationFinders.DeclRun | src/Core/ContextBuilder.php:69-74 | the whole declaration pass only adds buckets, keeping the order of the existing ones |
| DeclarationFinders.DeclRunAddsNoRefs | src/Core/ContextBuilder.php:69-74 | the declaration pass records no reference: every symbol it creates or replaces has none, and bucket references stay |
| DeclarationFinders.DeclRunStack | src/Visitors/DeclarationFinder.php:50-58 | the declaration pass's stack only grows: it ends as the namespaces entered, most recent first, before the start |
| DeclarationFinders.DeclRunValid | src/Visitors/DeclarationFinder.php:56 | the pass keeps the table's key orders well formed |
| DeclarationFinders.Redeclare | src/Visitors/DeclarationFinder.php:54-56 | declaring the same qualified name twice is the same as declaring only the second |
| ReferenceFinders.RefFqn | src/Core/Visitors/ReferenceFinder.php:62 | a name or an identifier of a parsed tree resolves to a non-empty qualified name |
| ReferenceFinders.ReferenceFinder.constructor | src/Core/Visitors/ReferenceFinder.php:29-32 | holds the given context; empty stack |
| ReferenceFinders.ReferenceFinder.BeforeTraverse | src/Core/Visitors/ReferenceFinder.php:39-42 | the stack is reset through the parent |
| ReferenceFinders.ReferenceFinder.EnterNode | src/Core/Visitors/ReferenceFinder.php:49-52 | the parent's push of a namespace statement's segments |
| ReferenceFinders.ReferenceFinder.LeaveNode | src/Core/Visitors/ReferenceFinder.php:59-76 | the context's table becomes the reference step's; the stack is not popped |
| ReferenceFinders.ReferenceFinder.Traverse | src/Core/ContextBuilder.php:85-90 | reset, then every visit in order: the stack and table end as `RefRun` over `Walk` from an empty stack |
| ReferenceFinders.RefLeaveName | src/Core/Visitors/ReferenceFinder.php:61-68 | a name or identifier is appended, again if already there, to its symbol's references exactly when the symbol exists and has a declaration; otherwise the table is unchanged |
| ReferenceFinders.RefLeaveNamespace | src/Core/Visitors/ReferenceFinder.php:69-75 | a namespace statement's name node is appended to its bucket's references exactly when the bucket already exists; nothing is created |
| ReferenceFinders.RefStep | src/Core/Visitors/ReferenceFinder.php:49-76 | one visit of the reference pass pushes a namespace statement's segments on entry and otherwise keeps the stack; it creates no bucket and keeps their order |
| ReferenceFinders.RefRun | src/Core/ContextBuilder.php:85-90 | the whole reference pass creates no bucket and keeps their order |
| ReferenceFinders.AppendSymbolRefGrows | src/Core/Visitors/ReferenceFinder.php:67 | recording a symbol reference only grows the table |
| ReferenceFinders.AppendNamespaceRefGrows | src/Core/Visitors/ReferenceFinder.php:73 | recording a namespace reference only grows the table |
| ReferenceFinders.RefStepGrows | src/Core/Visitors/ReferenceFinder.php:59-76 | one visit keeps every key, order, name and declaration, and only extends reference lists at the end |
| ReferenceFinders.RefRunGrows | src/Core/ContextBuilder.php:85-90 | the same for the whole reference pass: it adds no symbol and removes nothing |
| ReferenceFinders.RefRunFindsSame | src/Core/ContextBuilder.php:85-90 | after the reference pass, exactly the same places hold a symbol as before |
| ReferenceFinders.RefRunStack | src/Core/Visitors/ReferenceFinder.php:49-76 | the reference pass's stack only grows: the namespaces entered, most recent first, before the start |
| ReferenceFinders.RefRunValid | src/Core/Visitors/ReferenceFinder.php:59-76 | the pass keeps the table's key orders well formed |
| ReferenceFinders.OwnNameIsRef | src/Core/Visitors/ReferenceFinder.php:61-68 | after a declaration is filed, leaving its own name identifier records that identifier as the symbol's first reference |
| ContextBuilders.ContextBuilder.constructor | src/Core/ContextBuilder.php:37-41 | a fresh declaration finder and a fresh reference finder, both over the given context |
| ContextBuilders.ContextBuilder.BuildDecls | src/Core/ContextBuilder.php:69-74 | the context's table becomes `DeclsOf` the unit |
| ContextBuilders.ContextBuilder.BuildRefs | src/Core/ContextBuilder.php:85-90 | the context's table becomes `RefsOf` the unit |
| ContextBuilders.ContextBuilder.Build | src/Core/ContextBuilder.php:52-58 | `build` is exactly `buildDecls` then `buildRefs` on the shared context |
| ContextBuilders.BuildFindsDeclared | src/Core/ContextBuilder.php:52-90 | after `build`, a symbol is found exactly where the declaration pass filed one, and the reference pass only grew the table |
| ContextBuilders.BuildKeepsShape | src/Core/ContextBuilder.php:69-90 | the declaration pass adds no reference, and both passes keep the table well formed |
| Cages.Cage.constructor | src/Core/Cage.php:49-55 | stores the context and the transform, and creates the two passes over the context |
| Cages.Cage.CreatePasses | src/Core/Cage.php:88-97 | a fresh declaration pass, then a fresh reference pass, both over the cage's context |
| Cages.Cage.Analyze | src/Core/Cage.php:64-69 | every pass traverses the unit in order: the table ends as `RefsOf(DeclsOf(...))` |
| Cages.Cage.Run | src/Core/Cage.php:76-79 | the configured transform is applied once to the context |
| Cages.Cage.Create | src/Core/Cage.php:132-135 | a cage over a fresh, empty context |
| NamespaceTransforms.Apply | src/Transforms/NamespaceTransform.php:45-75 | the loop over the buckets rewrites the arena exactly as `ApplySpec` and throws what it throws |
| NamespaceTransforms.ApplyBucket | src/Transforms/NamespaceTransform.php:48-73 | one bucket throws exactly when the rename does not skip it and it holds a namespace reference, and then it throws the rename's `RuntimeException` |
| NamespaceTransforms.ApplyKeys | src/Transforms/NamespaceTransform.php:47-73 | the buckets at the given keys throw exactly when one of them throws, and only the rename's `RuntimeException` |
| NamespaceTransforms.ApplySpec | src/Transforms/NamespaceTransform.php:45-75 | `apply` throws exactly when some bucket of the table is not skipped and holds a namespace reference, and only the rename's `RuntimeException` |
| NamespaceTransforms.ApplyBucketLoop | src/Transforms/NamespaceTransform.php:48-73 | one bucket: skipped when `isEqualTo` holds; otherwise the first namespace reference is renamed and the throw follows; with no namespace reference, the symbols' references are renamed |
| NamespaceTransforms.RenameSymbolsLoop | src/Transforms/NamespaceTransform.php:65-73 | the nested loop over symbols and references computes `RenameSymbols` in the bucket's order |
| NamespaceTransforms.GlobalBucketSkipped | src/Transforms/NamespaceTransform.php:51-53 | as written, the global bucket is always skipped |
| NamespaceTransforms.UntouchedNamespaceNotSkipped | src/Transforms/NamespaceTransform.php:48-62 | as written, a namespace the rename does not change keeps its name but is not skipped, and the transform throws if it has a namespace reference |
| NamespaceTransforms.RenamedAtRoot | src/Transforms/NamespaceTransform.php:48-53 | a namespace starting with `search` becomes `replace` plus the rest; when that changes its length it is not skipped |
| NamespaceTransforms.ThrowsAfterFirstRef | src/Transforms/NamespaceTransform.php:55-63 | a processed bucket with a namespace reference renames that first reference and throws; nothing after it is touched |
| NamespaceTransforms.ApplyKeysConcat | src/Transforms/NamespaceTransform.php:47 | the buckets are processed in order, and a throw stops the loop |
| NamespaceTransforms.RenameNsRefTouches | src/Transforms/NamespaceTransform.php:56-60 | renaming a namespace reference changes only that node, keeping its kind |
| NamespaceTransforms.RenameRefsTouches | src/Transforms/NamespaceTransform.php:66-71 | a symbol's reference loop changes only its references, and never an identifier |
| NamespaceTransforms.RenameSymbolsTouches | src/Transforms/NamespaceTransform.php:65-73 | the symbol loop changes only its symbols' references, and never an identifier |
| NamespaceTransforms.ApplyBucketTouches | src/Transforms/NamespaceTransform.php:55-73 | a bucket's step changes only references the bucket holds |
| NamespaceTransforms.ApplyKeysTouches | src/Transforms/NamespaceTransform.php:45-75 | the transform rewrites only referenced nodes and never a declaration. It keeps every node's kind and resolved name, and adds or removes no node |
| NamespaceTransforms.RenameSymbolRefAtRoot | src/Transforms/NamespaceTransform.php:67-71 | a symbol reference starting with `search` gets `replace` plus the rest; any other keeps its segments |
| NamespaceTransforms.RenameNsRefsIntendedRenamesAll | src/Transforms/NamespaceTransform.php:55-63 | corrected: every namespace reference that is a name or identifier gets the new name, and nothing throws |
| NamespaceTransforms.ApplyBucketIntendedTotal | src/Transforms/NamespaceTransform.php:55-73 | corrected: a bucket whose references are renamable throws nothing and changes only its references |
| NamespaceTransforms.ApplyKeysIntendedTotal | src/Transforms/NamespaceTransform.php:45-75 | corrected: the transform never throws on a table whose namespace references are names or identifiers, and changes only referenced nodes |
| NamespaceTransforms.UntouchedSkippedIntended | src/Transforms/NamespaceTransform.php:51-53 | corrected: a namespace the rename does not change is skipped, and its bucket is left alone |
| NamespaceTransforms.ThrowCounterexample | src/Transforms/NamespaceTransform.php:55-63 | renaming `A` to `P\A` with two references: as written the first is renamed and it throws, the second is untouched; corrected, both are renamed |
| NamespaceTransforms.PrefixRenameExample | src/Transforms/NamespaceTransform.php:48-53 | `A` to `P\A` gives `P\A` under both readings, and neither skips the bucket |
| NamespaceTransforms.SkipCounterexample | src/Transforms/NamespaceTransform.php:51-53 | renaming `A` to `B`: as written the bucket is skipped because no segment agrees; corrected, it is renamed |
| Transforms.NewTransformList | src/Core/Transforms/TransformList.php:31-34 | the list is fixed at construction |
| Transforms.ApplyTransform | src/Core/Transforms/TransformList.php:44 | a transform's `apply` rewrites the arena as `TransformOutcome` says |
| Transforms.TransformOutcome | src/Core/Transforms/TransformList.php:44 | a transform throws only the rename's `RuntimeException`, and a rename throws whenever some bucket it does not skip holds a namespace reference |
| Transforms.ListOutcome | src/Core/Transforms/TransformList.php:41-46 | a list throws only the rename's `RuntimeException`, and a throw by its first transform is the list's outcome |
| Transforms.ApplyList | src/Core/Transforms/TransformList.php:41-46 | the loop applies the transforms in order on the same context, each seeing the previous rewrites; a throw propagates and stops the list; an empty list changes nothing |
| Transforms.ListOutcomeConcat | src/Core/Transforms/TransformList.php:43-45 | applying `a + b` is applying `a` then, unless it threw, `b` |
| Transforms.Flatten | src/Core/Transforms/TransformList.php:41-46 | a nested list behaves as its transforms spliced into the outer one |
| Transforms.TransformTouches | src/Core/Transforms/TransformList.php:41-46 | however nested, transforms rewrite only referenced nodes and never a declaration |
| Transforms.ListTouches | src/Core/Transforms/TransformList.php:43-45 | the same for a list |
| CageCommands.CollectValid | src/Cli/CageCommand.php:83-108 | both collection loops keep the table well formed |
| CageCommands.CollectSources | src/Cli/CageCommand.php:83-92 | scanning the sources only adds buckets, keeping the order of the existing ones |
| CageCommands.CollectIncludes | src/Cli/CageCommand.php:94-108 | scanning the include directories creates no bucket and keeps their order |
| CageCommands.ScanSources | src/Cli/CageCommand.php:83-92 | the source callback, per unit in turn: `buildDecls` then `buildRefs`, computing `CollectSources` |
| CageCommands.ScanIncludes | src/Cli/CageCommand.php:94-108 | the include callback, per unit in turn: `buildRefs` only, computing `CollectIncludes` |
| CageCommands.IncludesFindSame | src/Cli/CageCommand.php:94-108 | reference passes over include files add no symbol and remove none |
| CageCommands.IncludesConcat | src/Cli/CageCommand.php:94-108 | scanning two directories in turn is scanning their units one after the other |
| CageCommands.IntendedSeesAllDecls | src/Cli/CageCommand.php:83-92 | corrected order: every unit's reference pass sees exactly the symbols of all declaration passes |
| CageCommands.RefStepRenamable | src/Core/Visitors/ReferenceFinder.php:59-76 | one visit of the reference pass keeps every namespace reference a name or an identifier: the one it records is a namespace statement's name node |
| CageCommands.RefRunRenamable | src/Core/ContextBuilder.php:85-90 | the same for the whole reference pass |
| CageCommands.DeclRunRenamable | src/Core/ContextBuilder.php:69-74 | the declaration pass records no namespace reference, so it keeps the property |
| CageCommands.CollectRenamable | src/Cli/CageCommand.php:83-108 | both collection loops keep every namespace reference a name or an identifier |
| CageCommands.CollectedRenamable | src/Cli/CageCommand.php:77-108 | the table the command collects from an empty context holds only names and identifiers as namespace references |
| CageCommands.CollectedIntendedTotal | src/Transforms/NamespaceTransform.php:45-75 | corrected: a rename applied to the table the command collects never throws, and rewrites only nodes the table records as references |
| CageCommands.PrefixRename | src/Cli/CageCommand.php:120-123 | the rename of a top-level namespace searches for it and replaces it by the prefix followed by it |
| CageCommands.Plan | src/Cli/CageCommand.php:110-129 | the loop over the tree's top-level keys computes `PlanSpec`, the empty key skipped |
| CageCommands.RenamesOf | src/Cli/CageCommand.php:115-129 | reference definition: one prefixing rename per key, position for position |
| CageCommands.PlanSpec | src/Cli/CageCommand.php:113-129 | at most one transform per top-level key, each the prefixing rename of a non-empty key |
| CageCommands.PlanSpecRenames | src/Cli/CageCommand.php:113-129 | the plan is exactly one prefixing rename per non-empty top-level key, in tree order |
| CageCommands.PlanCoversKeys | src/Cli/CageCommand.php:115-123 | every non-empty top-level key gets its rename in the plan |
| CageCommands.PlannedRenameNeverSkips | src/Cli/CageCommand.php:120-123 | as written, with a non-empty prefix, a planned rename skips no namespace but the global one |
| CageCommands.PlanFirstThrowsAt | src/Cli/CageCommand.php:113-129 | as written, with a non-empty prefix and a non-empty key, the first planned rename skips no non-global namespace, so a bucket of that namespace holding a namespace reference throws |
| CageCommands.PlanThrowsOnNamespaceRef | src/Cli/CageCommand.php:110-134 | as written, with a non-empty prefix, the plan ends in the `RuntimeException` whenever a non-empty key is planned and some non-global namespace holds a namespace reference |
| CageCommands.TreeHoldsFirstSegment | src/Core/Context.php:73-98 | the first segment of a namespace holding a bucket is a top-level key of the tree, and no top-level key holds a separator |
| CageCommands.TreePlanThrowsOnNamespaceRef | src/Cli/CageCommand.php:110-134 | as written, with a non-empty prefix, the transform list compiled from the tree ends in the `RuntimeException` whenever some non-global namespace's bucket holds a namespace reference |
| CageCommands.CommandThrowsOnNamespaceRef | src/Cli/CageCommand.php:83-134 | as written, with a non-empty prefix and a tree that builds, the command ends in the `RuntimeException` whenever the reference passes recorded a namespace statement naming a non-global namespace, that is, one whose bucket already existed when the statement was reached |
| CageCommands.Execute | src/Cli/CageCommand.php:83-134 | collection, tree, plan and one transform list applied once: the arena and error are `CommandOutcome` |
| CageCommands.CommandOutcome | src/Cli/CageCommand.php:83-134 | the command keeps every node, never changes a node that is not a name or an identifier, and throws only the rename's `RuntimeException` or `getTree`'s type error |
| CommandExamples.CollectTwo | src/Cli/CageCommand.php:83-92 | over two files, as written: decls and refs of the first, then of the second; corrected: both decls, then both refs |
| CommandExamples.AsWrittenMissesFirst | src/Cli/CageCommand.php:83-92 | a file using `B`, then a file declaring `B`: as written, `B` gets only its own name as reference |
| CommandExamples.IntendedFindsFirst | src/Cli/CageCommand.php:83-92 | the same files with the declarations first: `B` also gets the first file's use |
| CommandExamples.LaterDeclarationMissed | src/Cli/CageCommand.php:83-92 | both outcomes side by side: the as-written collection misses a use that comes before its declaration |

## Left out

- Symbol identity: symbols and buckets are values inside the table, not shared objects. The model
  does not capture aliasing of a `Symbol` object reached through two paths. Every access goes
  through the table, whose updates are modelled exactly.
- A braced global `namespace { }` statement, whose name is null: the reference finder calls a method
  on that null. The model's namespace statements always have a name.
- PHP's conversion of numeric-string array keys (`"1"` becomes `1`) is not modelled. Table keys stay
  strings.
- QNames.GetName: the `TypeError` of `end` on an empty name becomes a precondition. Every caller in
  the core passes a non-empty name.
- QNames.IndexOf and QNames.Replace: the lemmas about their meaning (`ReplaceList`, `ReplaceAtRoot`,
  `FirstRunKeyList`) are stated for names whose keys are positions, which is what every caller
  builds. The general case is shown by `IndexOfKeyCounterexample`.
- The parser, `Unit`, format-preserving printing and the file system (`FileUnitFinder`, `mkdir`,
  `file_put_contents`): inputs are given as an arena of nodes and lists of top-level statements.
- Command options, path trimming and console output in `CageCommand`: the prefix option is a
  parameter.
- PHP-Parser's `NameResolver`: its result is the `resolvedName` input field of name nodes. Creating
  a traverser with the resolver (src/Core/Cage.php:108-121, src/Core/ContextBuilder.php:101-114)
  is therefore not modelled.
- `NodeTraverser`: its traversal is the fixed enter/children/leave schedule `Walk`. Visitor return
  values that replace or remove nodes are not used by the core.
- Ast.Children: PHP-Parser's node classes are not part of this model. The sub-node order is fixed
  with the name node first, and names and identifiers have no sub-nodes.
- The `Transform` interface (src/Transform.php) is the datatype `Transform` of the two transforms
  of the core.
- Node names hold a sequence of segments. When the transform assigns a filtered array with gaps in
  its keys to `$ref->parts`, the model keeps the values and not the keys.
- CreatingContext.Context: the command uses the non-creating `Core\Context`. The creating variant
  is modelled and proved on its own, and nothing in the command calls it.
- CageCommands.Execute and CageCommands.CommandOutcome use the collection order as written.
  `CollectSourcesIntended` runs every declaration pass before any reference pass and is not wired into `Execute`.
- Exceptions other than the transform's `RuntimeException` and PHP's `TypeError` from `getTree`
  (for example memory exhaustion) are not modelled.

## Findings

| source | as written | input that shows it | evidently intended | confidence | as-written member | corrected member |
|---|---|---|---|---|---|---|
| src/Core/QName.php:72-76 | `isEqualTo` returns false as soon as one position agrees, and true only when none does | `A` compared with `A` is false; `A` compared with `B` is true | false at the first position that differs, true when all agree | high, not executed | QNames.IsEqualTo, NamespaceTransforms.SkipCounterexample | QNames.IsEqualToIntended, QNames.KeysAgreeSameName |
| src/Transforms/NamespaceTransform.php:55-63 | the `throw` follows the if/elseif, so the first reference of every processed bucket, even a name or identifier, makes `apply` throw | renaming `A` to `P\A` in a table whose bucket `A` has two name references | throw only for a reference that is neither a name nor an identifier | high, not executed | NamespaceTransforms.ThrowCounterexample, NamespaceTransforms.ThrowsAfterFirstRef, CageCommands.CommandThrowsOnNamespaceRef | NamespaceTransforms.ApplyKeysIntendedTotal, NamespaceTransforms.ApplyBucketIntendedTotal, CageCommands.CollectedIntendedTotal |
| src/Core/QName.php:106-137 | `indexOf` returns the key of the run, which `array_filter` can leave unequal to its position, and `array_splice` uses it as a position | `fromString('\\A\\B')->replace(['A'], ['X'])` gives `A\X` | the documented 0-based position, giving `X\B` | medium, not executed | QNames.IndexOfKeyCounterexample, QNames.Replace | QNames.ReplaceIntended, QNames.ReplaceIntendedSplices |
| src/Cli/CageCommand.php:83-92 | each source file gets its declaration pass and then its reference pass before the next file is read | a file using class `B` read before the file declaring `B`: that use is not recorded, and the transform rewrites only recorded references (`Transforms.TransformTouches`) | all declaration passes before any reference pass: the include directories get only `buildRefs` after every source file's declaration pass (src/Cli/CageCommand.php:94-108), `ContextBuilder` offers `buildDecls` and `buildRefs` as separate passes (src/Core/ContextBuilder.php:52-89), and the tool is meant to rename every use of a moved class | medium, not executed | CommandExamples.AsWrittenMissesFirst, CommandExamples.LaterDeclarationMissed | CommandExamples.IntendedFindsFirst, CageCommands.IntendedSeesAllDecls |
