/**
 * Two source files, the first `new B;` in the global namespace and the second `class B {}`: the
 * driver's one-file-at-a-time collection misses the reference of the first file, and the collection
 * with every declaration pass first finds it.
 */
module CommandExamples {
  import opened Wrappers
  import opened Php
  import opened QNames
  import opened Ast
  import opened Symbols
  import opened Tables
  import opened Passes
  import opened DeclarationFinders
  import opened ReferenceFinders
  import opened ContextBuilders
  import opened CageCommands

  /** Node 1 is the name `B` of `new B`, node 2 its statement; node 3 is the identifier `B` of the class, node 4 the class. */
  const Nodes: map<NodeId, Node> := map[
    1 := Name(["B"], Some(["B"])),
    2 := Other([1]),
    3 := Identifier("B"),
    4 := ClassLike(Some(3), [])]

  /** The trees of the two files, in the order the file finder yields them. */
  const Units: seq<seq<NodeId>> := [[2], [4]]

  /** The two trees are parsed trees. */
  lemma UnitsParsed()
    ensures AllParsed(Nodes, Units)
  {
    assert Nodes.Keys == {1, 2, 3, 4};
    assert Segment("B");
  }

  /** A name whose one segment is `B` is filed as `B` in the global bucket. */
  lemma KeyOfB(q: QName)
    requires q.parts.vals == ["B"]
    ensures KeyOf(q) == "" && NameOf(q) == "B"
  {
    assert GetParent(q) == FromList([]);
    assert FromList([]).parts.vals == [];
  }

  /** A symbol `B` with a declaration is in the global bucket. */
  predicate HasB(t: TableV) {
    var s := LookupSymbol(t, "", "B");
    s.Some? && s.value.decl.Some?
  }

  /** The nodes of the first file, as any tree that holds them has them. */
  predicate HasFirst(nodes: map<NodeId, Node>) {
    1 in nodes && 2 in nodes && nodes[1] == Name(["B"], Some(["B"])) && nodes[2] == Other([1])
  }

  /** The nodes of the second file. */
  predicate HasSecond(nodes: map<NodeId, Node>) {
    3 in nodes && 4 in nodes && nodes[3] == Identifier("B") && nodes[4] == ClassLike(Some(3), [])
  }

  /** The traversal of a node without children: enter it, leave it. */
  lemma WalkLeaf(nodes: map<NodeId, Node>, id: NodeId)
    requires Shaped(nodes) && id in nodes && Children(nodes[id]) == []
    ensures WalkNode(nodes, id) == [Enter(id), Leave(id)]
  {
  }

  /** The traversal of a node with one child that has none. */
  lemma WalkPair(nodes: map<NodeId, Node>, id: NodeId, c: NodeId)
    requires Shaped(nodes) && id in nodes && Children(nodes[id]) == [c] && c in nodes && Children(nodes[c]) == []
    ensures Walk(nodes, [id]) == [Enter(id), Enter(c), Leave(c), Leave(id)]
  {
    assert c < id;
    WalkLeaf(nodes, c);
    assert WalkNodes(nodes, [c], id) == WalkNode(nodes, c) + WalkNodes(nodes, [], id);
    assert WalkNodes(nodes, [id], id + 1) == WalkNode(nodes, id) + WalkNodes(nodes, [], id + 1);
  }

  /** The traversal of the first file: the statement, and inside it the name. */
  lemma WalkFirst(nodes: map<NodeId, Node>)
    requires WellFormed(nodes) && HasFirst(nodes)
    ensures Parsed(nodes, [2])
    ensures Walk(nodes, [2]) == [Enter(2), Enter(1), Leave(1), Leave(2)]
  {
    WalkPair(nodes, 2, 1);
  }

  /** The traversal of the second file: the class, and inside it its name. */
  lemma WalkSecond(nodes: map<NodeId, Node>)
    requires WellFormed(nodes) && HasSecond(nodes)
    ensures Parsed(nodes, [4])
    ensures Walk(nodes, [4]) == [Enter(4), Enter(3), Leave(3), Leave(4)]
  {
    WalkPair(nodes, 4, 3);
  }

  /** The declaration pass over a walk of the shape above, when its entries and its inner leaving change nothing. */
  lemma DeclRunPair(nodes: map<NodeId, Node>, t: TableV, id: NodeId, c: NodeId)
    requires WellFormed(nodes) && id in nodes && c in nodes
    requires !nodes[id].Namespace? && !nodes[c].Namespace? && DeclName(nodes[c]).None?
    ensures DeclRun(nodes, PassState([], t), [Enter(id), Enter(c), Leave(c), Leave(id)])
      == DeclStep(nodes, PassState([], t), Leave(id))
  {
    var st := PassState([], t);
    var vs := [Enter(id), Enter(c), Leave(c), Leave(id)];
    assert vs[1..] == [Enter(c), Leave(c), Leave(id)] && vs[1..][1..] == [Leave(c), Leave(id)];
    assert vs[1..][1..][1..] == [Leave(id)] && vs[1..][1..][1..][1..] == [];
    assert DeclStep(nodes, st, Enter(id)) == st && DeclStep(nodes, st, Enter(c)) == st && DeclStep(nodes, st, Leave(c)) == st;
    assert DeclRun(nodes, st, vs) == DeclRun(nodes, st, vs[1..]);
    assert DeclRun(nodes, st, vs[1..]) == DeclRun(nodes, st, vs[1..][1..]);
    assert DeclRun(nodes, st, vs[1..][1..]) == DeclRun(nodes, st, vs[1..][1..][1..]);
  }

  /** The reference pass over such a walk, when its entries and its outer leaving change nothing. */
  lemma RefRunPair(nodes: map<NodeId, Node>, t: TableV, id: NodeId, c: NodeId)
    requires WellFormed(nodes) && id in nodes && c in nodes
    requires !nodes[id].Namespace? && !nodes[c].Namespace? && !nodes[id].Name? && !nodes[id].Identifier?
    requires RefStep(nodes, PassState([], t), Leave(c)).stack == []
    ensures RefRun(nodes, PassState([], t), [Enter(id), Enter(c), Leave(c), Leave(id)])
      == RefStep(nodes, PassState([], t), Leave(c))
  {
    var st := PassState([], t);
    var vs := [Enter(id), Enter(c), Leave(c), Leave(id)];
    assert vs[1..] == [Enter(c), Leave(c), Leave(id)] && vs[1..][1..] == [Leave(c), Leave(id)];
    assert vs[1..][1..][1..] == [Leave(id)] && vs[1..][1..][1..][1..] == [];
    assert RefStep(nodes, st, Enter(id)) == st && RefStep(nodes, st, Enter(c)) == st;
    var st' := RefStep(nodes, st, Leave(c));
    assert RefStep(nodes, st', Leave(id)) == st';
    assert RefRun(nodes, st, vs) == RefRun(nodes, st, vs[1..]);
    assert RefRun(nodes, st, vs[1..]) == RefRun(nodes, st, vs[1..][1..]);
    assert RefRun(nodes, st, vs[1..][1..]) == RefRun(nodes, st', vs[1..][1..][1..]);
  }

  /** The name `B` of the first file stands for `B`. */
  lemma FqnOfName(nodes: map<NodeId, Node>)
    requires WellFormed(nodes) && HasFirst(nodes)
    ensures KeyOf(RefFqn(nodes, [], 1)) == "" && NameOf(RefFqn(nodes, [], 1)) == "B"
  {
    assert RefFqn(nodes, [], 1) == Make(List(["B"]));
    KeyOfB(Make(List(["B"])));
  }

  /** The identifier `B` of the second file stands for `B` in the global namespace. */
  lemma FqnOfIdentifier(nodes: map<NodeId, Node>)
    requires WellFormed(nodes) && HasSecond(nodes)
    ensures KeyOf(RefFqn(nodes, [], 3)) == "" && NameOf(RefFqn(nodes, [], 3)) == "B"
  {
    assert RefFqn(nodes, [], 3) == FromNsAndName([], "B");
    assert FromList([]).parts.vals == [];
    KeyOfB(FromNsAndName([], "B"));
  }

  /** The class of the second file is filed as `B` in the global bucket. */
  lemma FqnOfClass(nodes: map<NodeId, Node>)
    requires WellFormed(nodes) && HasSecond(nodes)
    ensures KeyOf(DeclFqn(nodes, [], 4)) == "" && NameOf(DeclFqn(nodes, [], 4)) == "B"
  {
    assert DeclFqn(nodes, [], 4) == FromNsAndName([], "B");
    assert FromList([]).parts.vals == [];
    KeyOfB(FromNsAndName([], "B"));
  }

  /** The first file declares nothing. */
  lemma FirstFileDecls(nodes: map<NodeId, Node>, t: TableV)
    requires WellFormed(nodes) && HasFirst(nodes)
    ensures Parsed(nodes, [2])
    ensures DeclsOf(nodes, [2], t) == t
  {
    WalkFirst(nodes);
    DeclRunPair(nodes, t, 2, 1);
  }

  /** The first file's reference pass records node 1 exactly when `B` is known. */
  lemma FirstFileRefs(nodes: map<NodeId, Node>, t: TableV)
    requires WellFormed(nodes) && HasFirst(nodes)
    ensures Parsed(nodes, [2])
    ensures RefsOf(nodes, [2], t) == if HasB(t) then AppendSymbolRef(t, "", "B", 1) else t
  {
    WalkFirst(nodes);
    FqnOfName(nodes);
    RefRunPair(nodes, t, 2, 1);
  }

  /** The second file declares `B` as node 4. */
  lemma SecondFileDecls(nodes: map<NodeId, Node>, t: TableV)
    requires WellFormed(nodes) && HasSecond(nodes)
    ensures Parsed(nodes, [4])
    ensures DeclsOf(nodes, [4], t) == PutSymbol(t, "", "B", NewSymbol(4))
  {
    WalkSecond(nodes);
    FqnOfClass(nodes);
    DeclRunPair(nodes, t, 4, 3);
  }

  /** The second file's reference pass records node 3 exactly when `B` is known. */
  lemma SecondFileRefs(nodes: map<NodeId, Node>, t: TableV)
    requires WellFormed(nodes) && HasSecond(nodes)
    ensures Parsed(nodes, [4])
    ensures RefsOf(nodes, [4], t) == if HasB(t) then AppendSymbolRef(t, "", "B", 3) else t
  {
    WalkSecond(nodes);
    FqnOfIdentifier(nodes);
    RefRunPair(nodes, t, 4, 3);
  }

  /** The driver over two source files: both passes over the first, then both over the second. */
  lemma CollectTwo(nodes: map<NodeId, Node>, u1: seq<NodeId>, u2: seq<NodeId>, t: TableV)
    requires AllParsed(nodes, [u1, u2])
    ensures Parsed(nodes, u1) && Parsed(nodes, u2)
    ensures CollectSources(nodes, [u1, u2], t) == RefsOf(nodes, u2, DeclsOf(nodes, u2, RefsOf(nodes, u1, DeclsOf(nodes, u1, t))))
    ensures CollectSourcesIntended(nodes, [u1, u2], t) == RefsOf(nodes, u2, RefsOf(nodes, u1, DeclsOf(nodes, u2, DeclsOf(nodes, u1, t))))
  {
    assert u1 in [u1, u2] && u2 in [u1, u2];
    assert [u1, u2][0] == u1 && [u1, u2][1..] == [u2] && [u2][0] == u2 && [u2][1..] == [];
    var a := RefsOf(nodes, u1, DeclsOf(nodes, u1, t));
    assert CollectSources(nodes, [u1, u2], t) == CollectSources(nodes, [u2], a);
    assert CollectSources(nodes, [u2], a) == CollectSources(nodes, [], RefsOf(nodes, u2, DeclsOf(nodes, u2, a)));
    var d := DeclsOf(nodes, u2, DeclsOf(nodes, u1, t));
    assert DeclsAll(nodes, [u1, u2], t) == DeclsAll(nodes, [u2], DeclsOf(nodes, u1, t));
    assert DeclsAll(nodes, [u2], DeclsOf(nodes, u1, t)) == DeclsAll(nodes, [], d);
    assert CollectIncludes(nodes, [u1, u2], d) == CollectIncludes(nodes, [u2], RefsOf(nodes, u1, d));
    assert CollectIncludes(nodes, [u2], RefsOf(nodes, u1, d)) == CollectIncludes(nodes, [], RefsOf(nodes, u2, RefsOf(nodes, u1, d)));
  }

  /** As written, `B` ends with the reference of its own name only. */
  lemma AsWrittenMissesFirst()
    ensures AllParsed(Nodes, Units)
    ensures LookupSymbol(CollectSources(Nodes, Units, EmptyDict()), "", "B") == Some(Symbol(Some(4), [3]))
  {
    UnitsParsed();
    assert HasFirst(Nodes) && HasSecond(Nodes);
    var e: TableV := EmptyDict();
    CollectTwo(Nodes, [2], [4], e);
    FirstFileDecls(Nodes, e);
    FirstFileRefs(Nodes, e);
    var t1 := PutSymbol(e, "", "B", NewSymbol(4));
    SecondFileDecls(Nodes, e);
    SecondFileRefs(Nodes, t1);
    assert HasB(t1);
  }

  /** Declarations first, `B` also has the reference of the first file, before its own. */
  lemma IntendedFindsFirst()
    ensures AllParsed(Nodes, Units)
    ensures LookupSymbol(CollectSourcesIntended(Nodes, Units, EmptyDict()), "", "B") == Some(Symbol(Some(4), [1, 3]))
  {
    UnitsParsed();
    assert HasFirst(Nodes) && HasSecond(Nodes);
    var e: TableV := EmptyDict();
    CollectTwo(Nodes, [2], [4], e);
    FirstFileDecls(Nodes, e);
    var t1 := PutSymbol(e, "", "B", NewSymbol(4));
    SecondFileDecls(Nodes, e);
    PutThenLookup(e, "", "B", NewSymbol(4), "", "B");
    FirstFileRefs(Nodes, t1);
    TwoRefs(t1);
    SecondFileRefs(Nodes, AppendSymbolRef(t1, "", "B", 1));
  }

  /** Recording node 1 and then node 3 on the fresh symbol `B`. */
  lemma TwoRefs(t1: TableV)
    requires LookupSymbol(t1, "", "B") == Some(Symbol(Some(4), []))
    ensures HasB(t1) && HasB(AppendSymbolRef(t1, "", "B", 1))
    ensures LookupSymbol(AppendSymbolRef(AppendSymbolRef(t1, "", "B", 1), "", "B", 3), "", "B") == Some(Symbol(Some(4), [1, 3]))
  {
    var t2 := AppendSymbolRef(t1, "", "B", 1);
    assert LookupSymbol(t2, "", "B") == Some(Symbol(Some(4), [1]));
    assert AddRef(Symbol(Some(4), [1]), 3) == Symbol(Some(4), [1, 3]);
  }

  /**
   * Two source files, `new B;` and then `class B {}`: as written, the first file's reference pass
   * runs before the second file declares `B`, and the reference is lost; with every declaration pass
   * first it is found.
   */
  lemma LaterDeclarationMissed()
    ensures AllParsed(Nodes, Units)
    ensures LookupSymbol(CollectSources(Nodes, Units, EmptyDict()), "", "B") == Some(Symbol(Some(4), [3]))
    ensures LookupSymbol(CollectSourcesIntended(Nodes, Units, EmptyDict()), "", "B") == Some(Symbol(Some(4), [1, 3]))
  {
    AsWrittenMissesFirst();
    IntendedFindsFirst();
  }
}
