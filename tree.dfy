/**
 * The namespace tree that `Context::getTree` exports: nested arrays keyed by namespace segment, where
 * the entry at a namespace's last segment is that namespace's array of symbols. A by-reference cursor
 * walks down one segment at a time; here that descent is the recursion of `Graft`.
 */
module Trees {
  import opened Wrappers
  import opened Php
  import opened QNames

  /** An entry of the tree: a nested array, or a symbol that a namespace's symbol array put there. */
  datatype Tree<S> = Branch(children: Dict<Tree<S>>) | Item(item: S)

  /** The message PHP gives when `array_key_exists` is handed a symbol object instead of an array. */
  const NotAnArray := "array_key_exists(): Argument #2 ($array) must be of type array"

  /** `$symNs->symbols` stored into the tree: each symbol of the bucket under its name, in order. */
  function Leaves<S>(syms: Dict<S>): (d: Dict<Tree<S>>)
    ensures d.order == syms.order && d.entries.Keys == syms.entries.Keys
    ensures forall n :: n in d.entries ==> d.entries[n] == Item(syms.entries[n])
  {
    Dict(syms.order, map n | n in syms.entries :: Item(syms.entries[n]))
  }

  /**
   * The segments the cursor follows for a namespace: `$qName->parts[$i]` for `$i` below the count of
   * parts, read by key, where a key that construction dropped reads as PHP's `null`, which an array
   * key treats as `""`.
   */
  function Path(q: QName): (p: seq<string>)
    ensures |p| == |q.parts.vals|
    ensures IsList(q.parts) ==> p == q.parts.vals
  {
    var n := |q.parts.vals|;
    var p := seq(n, i requires 0 <= i < n => match Get(q.parts, i) case Some(v) => v case None => "");
    assert IsList(q.parts) ==> forall i :: 0 <= i < n ==> p[i] == q.parts.vals[i] by {
      if IsList(q.parts) {
        forall i | 0 <= i < n { GetList(q.parts, i); }
      }
    }
    p
  }

  /**
   * One namespace's pass of the inner loop: at each segment the entry is created empty when missing;
   * at the last segment it is overwritten with the symbols; otherwise the cursor moves into it, which
   * fails on the next segment when the entry there is a symbol rather than an array.
   */
  function Graft<S>(d: Dict<Tree<S>>, path: seq<string>, syms: Dict<S>): (r: Result<Dict<Tree<S>>>)
    ensures |path| == 0 ==> r == Ok(d)
    ensures r.Ok? && |path| > 0 ==> path[0] in r.value.entries
    ensures r.Ok? && |path| > 0 ==> r.value.order == if path[0] in d.entries then d.order else d.order + [path[0]]
    ensures r.Ok? ==> forall k :: k in d.entries ==> k in r.value.entries
    ensures r.Ok? ==> forall k :: k in r.value.entries ==> k in d.entries || (|path| > 0 && k == path[0])
    ensures r.Ok? && d.Valid() ==> r.value.Valid()
    ensures r.Threw? ==> r.error == TypeError(NotAnArray)
    decreases |path|
  {
    if |path| == 0 then Ok(d)
    else
      var part := path[0];
      var d1 := if part in d.entries then d else d.Put(part, Branch(EmptyDict()));
      if |path| == 1 then Ok(d1.Put(part, Branch(Leaves(syms))))
      else
        match d1.entries[part]
        case Item(_) => Threw(TypeError(NotAnArray))
        case Branch(sub) =>
          match Graft(sub, path[1..], syms)
          case Threw(e) => Threw(e)
          case Ok(sub') => Ok(d1.Put(part, Branch(sub')))
  }

  /** The outer loop of `getTree`: graft each namespace in turn, in the table's order, stopping at the first failure. */
  function BuildTree<S>(keys: seq<string>, syms: map<string, Dict<S>>, acc: Dict<Tree<S>>): (r: Result<Dict<Tree<S>>>)
    requires forall k :: k in keys ==> k in syms
    ensures r.Threw? ==> r.error == TypeError(NotAnArray)
    ensures r.Ok? ==> forall k :: k in acc.entries ==> k in r.value.entries
    decreases |keys|
  {
    if |keys| == 0 then Ok(acc)
    else
      match Graft(acc, Path(FromString(keys[0])), syms[keys[0]])
      case Threw(e) => Threw(e)
      case Ok(acc') => BuildTree(keys[1..], syms, acc')
  }

  /** The first segment each namespace contributes, added once, in the order the namespaces come. */
  function TopKeys(order: seq<string>, keys: seq<string>): seq<string>
    decreases |keys|
  {
    if |keys| == 0 then order
    else
      var p := Path(FromString(keys[0]));
      TopKeys(if |p| > 0 && p[0] !in order then order + [p[0]] else order, keys[1..])
  }

  /** Every segment the cursor follows is a segment of the name, or `""` for a key construction dropped. */
  lemma PathSegments(q: QName)
    ensures forall x :: x in Path(q) ==> x == "" || x in q.parts.vals
  {
    var p := Path(q);
    forall x | x in p
      ensures x == "" || x in q.parts.vals
    {
      var i :| 0 <= i < |p| && p[i] == x;
      assert p[i] == match Get(q.parts, i) case Some(v) => v case None => "";
    }
  }

  /**
   * The top-level keys keep the keys already there and gain the first segment of every namespace
   * with one; every key added that way is free of separators.
   */
  lemma {:induction false} TopKeysHas(order: seq<string>, keys: seq<string>)
    ensures forall x :: x in order ==> x in TopKeys(order, keys)
    ensures forall k :: k in keys && |Path(FromString(k))| > 0 ==> Path(FromString(k))[0] in TopKeys(order, keys)
    ensures forall x :: x in TopKeys(order, keys) ==> x in order || SEP !in x
    decreases |keys|
  {
    if |keys| > 0 {
      var p := Path(FromString(keys[0]));
      var order' := if |p| > 0 && p[0] !in order then order + [p[0]] else order;
      TopKeysHas(order', keys[1..]);
      PathSegments(FromString(keys[0]));
      if |p| > 0 {
        assert p[0] in p;
      }
      assert forall k :: k in keys ==> k == keys[0] || k in keys[1..];
    }
  }

  /** The entry reached by following `path` from `d`, if there is one. */
  function Lookup<S>(d: Dict<Tree<S>>, path: seq<string>): Option<Tree<S>>
    requires |path| > 0
    decreases |path|
  {
    if path[0] !in d.entries then None
    else if |path| == 1 then Some(d.entries[path[0]])
    else match d.entries[path[0]]
      case Item(_) => None
      case Branch(sub) => Lookup(sub, path[1..])
  }

  /** After a successful graft, the entry at the namespace's last segment is its symbols. */
  lemma {:induction false} GraftSetsLeaf<S>(d: Dict<Tree<S>>, path: seq<string>, syms: Dict<S>)
    requires |path| > 0 && Graft(d, path, syms).Ok?
    ensures Lookup(Graft(d, path, syms).value, path) == Some(Branch(Leaves(syms)))
    decreases |path|
  {
    if |path| > 1 {
      var part := path[0];
      var d1 := if part in d.entries then d else d.Put(part, Branch(EmptyDict()));
      var sub := d1.entries[part].children;
      GraftSetsLeaf(sub, path[1..], syms);
    }
  }

  /**
   * The top-level keys of the tree are exactly the first segments of the namespaces, each once, in
   * the order in which they first occur; a namespace whose name has no segment (the global one) adds none.
   */
  lemma {:induction false} BuildTreeTopKeys<S>(keys: seq<string>, syms: map<string, Dict<S>>, acc: Dict<Tree<S>>)
    requires forall k :: k in keys ==> k in syms
    requires acc.Valid()
    requires BuildTree(keys, syms, acc).Ok?
    ensures BuildTree(keys, syms, acc).value.order == TopKeys(acc.order, keys)
    ensures BuildTree(keys, syms, acc).value.Valid()
    decreases |keys|
  {
    if |keys| > 0 {
      var p := Path(FromString(keys[0]));
      var acc' := Graft(acc, p, syms[keys[0]]).value;
      assert |p| > 0 ==> (p[0] in acc.entries <==> p[0] in acc.order);
      BuildTreeTopKeys(keys[1..], syms, acc');
    }
  }

  /**
   * A later namespace that is a proper prefix of an earlier one overwrites it: once the shorter one is
   * grafted, following the longer path reaches only a symbol of the shorter one, or nothing.
   */
  lemma ShorterOverwrites<S>(d: Dict<Tree<S>>, path: seq<string>, j: nat, syms: Dict<S>)
    requires 0 < j < |path| && Graft(d, path[..j], syms).Ok?
    ensures var t := Graft(d, path[..j], syms).value;
      Lookup(t, path) == (if |path| == j + 1 && path[j] in syms.entries then Some(Item(syms.entries[path[j]])) else None)
  {
    var t := Graft(d, path[..j], syms).value;
    GraftSetsLeaf(d, path[..j], syms);
    LookupSplit(t, path, j);
    if |path| > j + 1 && path[j] in syms.entries {
      assert Lookup(Leaves(syms), path[j..]) == None;
    }
  }

  /** Following a path is following its first `j` segments and then the rest. */
  lemma {:induction false} LookupSplit<S>(d: Dict<Tree<S>>, path: seq<string>, j: nat)
    requires 0 < j < |path|
    ensures Lookup(d, path) == match Lookup(d, path[..j])
      case Some(Branch(sub)) => Lookup(sub, path[j..])
      case _ => None
    decreases j
  {
    if j > 1 && path[0] in d.entries && d.entries[path[0]].Branch? {
      LookupSplit(d.entries[path[0]].children, path[1..], j - 1);
      assert path[1..][..j - 1] == path[..j][1..];
      assert path[1..][j - 1..] == path[j..];
    }
  }

  /**
   * Grafting fails when the cursor steps into a symbol: a namespace one segment below an existing
   * namespace's symbol of the same name, with at least one more segment to go.
   */
  lemma GraftIntoSymbol<S>(d: Dict<Tree<S>>, a: string, b: string, rest: seq<string>, syms: Dict<S>)
    requires a in d.entries && d.entries[a].Branch? && b in d.entries[a].children.entries
    requires d.entries[a].children.entries[b].Item?
    requires |rest| > 0
    ensures Graft(d, [a, b] + rest, syms) == Threw(TypeError(NotAnArray))
  {
    var path := [a, b] + rest;
    assert path[0] == a && path[1..] == [b] + rest;
    assert ([b] + rest)[0] == b;
  }
}
