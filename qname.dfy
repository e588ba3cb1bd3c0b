/**
 * Qualified names: a possibly namespaced PHP name as the array of its segments. Construction drops
 * PHP-falsy segments but keeps the keys of the remaining ones, which is why `IndexOf` reports a key.
 */
module QNames {
  import opened Wrappers
  import opened Php

  /** A qualified name; `parts` is the array its constructor kept. */
  datatype QName = QName(parts: Arr)

  /** Every segment of the name is truthy, as construction guarantees. */
  predicate Truthful(q: QName) {
    forall v :: v in q.parts.vals ==> Truthy(v)
  }

  /** A name whose segments are separator-free and truthy and whose keys are positions. */
  predicate Plain(q: QName) {
    IsList(q.parts) && Truthful(q) && forall v :: v in q.parts.vals ==> SEP !in v
  }

  /** `new QName($parts)`: keeps the truthy entries of `parts`, with their keys, in order. */
  function Make(parts: Arr): (q: QName)
    ensures Truthful(q)
    ensures forall v :: v in q.parts.vals ==> v in parts.vals
    ensures (forall v :: v in parts.vals ==> Truthy(v)) ==> q.parts == parts
  {
    QName(Filter(parts))
  }

  /** `new QName([...])` on a PHP list literal. */
  function FromList(vs: seq<string>): (q: QName)
    ensures Truthful(q)
    ensures forall v :: v in q.parts.vals ==> v in vs
    ensures (forall v :: v in vs ==> Truthy(v)) ==> q.parts == List(vs)
  {
    Make(List(vs))
  }

  /** Construction keeps each truthy segment in order and drops exactly the falsy ones. */
  lemma {:induction false} FromListFilters(xs: seq<string>, ys: seq<string>)
    ensures FromList(xs + ys).parts.vals == FromList(xs).parts.vals + FromList(ys).parts.vals
  {
    FilterConcat(xs, ys);
  }

  /** A name's segments become the segments of a fresh name unchanged: construction is idempotent. */
  lemma MakeIdempotent(q: QName)
    requires Truthful(q)
    ensures Make(q.parts) == q
  {
  }

  /** `getParent()`: all segments but the last, as a fresh name; the global name for one segment or none. */
  function GetParent(q: QName): (r: QName)
    ensures Truthful(q) && |q.parts.vals| > 1 ==> r.parts == List(q.parts.vals[..|q.parts.vals| - 1])
    ensures |q.parts.vals| <= 1 ==> r.parts.vals == []
  {
    var n := |q.parts.vals|;
    if n > 1 then FromList(q.parts.vals[..n - 1]) else FromList([])
  }

  /** `getName()`: the last segment. PHP's `end` of an empty array is `false`, a type error here, so the name is non-empty. */
  function GetName(q: QName): (r: string)
    requires |q.parts.vals| > 0
    ensures r in q.parts.vals && r == q.parts.vals[|q.parts.vals| - 1]
  {
    q.parts.vals[|q.parts.vals| - 1]
  }

  /** The parent followed by the name gives the segments back. */
  lemma ParentAndName(q: QName)
    requires Truthful(q) && |q.parts.vals| > 0
    ensures GetParent(q).parts.vals + [GetName(q)] == q.parts.vals
  {
    var vs := q.parts.vals;
    if |vs| == 1 {
      FilterValues(List([]), List([]));
    }
    assert vs[..|vs| - 1] + [vs[|vs| - 1]] == vs;
  }

  /**
   * What `isEqualTo` computes as written: the two names have as many segments, and no segment of
   * `q` equals the segment stored under the same key in `other`.
   */
  predicate NoSegmentAgrees(q: QName, other: QName) {
    && |q.parts.vals| == |other.parts.vals|
    && forall i :: 0 <= i < |q.parts.keys| ==> Get(other.parts, q.parts.keys[i]) != Some(q.parts.vals[i])
  }

  /** `$q->isEqualTo($other)`, with its loop and its early return. */
  method IsEqualTo(q: QName, other: QName) returns (r: bool)
    ensures r == NoSegmentAgrees(q, other)
  {
    if |q.parts.vals| != |other.parts.vals| {
      return false;
    }
    var i := 0;
    while i < |q.parts.keys|
      invariant 0 <= i <= |q.parts.keys|
      invariant forall j :: 0 <= j < i ==> Get(other.parts, q.parts.keys[j]) != Some(q.parts.vals[j])
    {
      if Get(other.parts, q.parts.keys[i]) == Some(q.parts.vals[i]) {
        return false;
      }
      i := i + 1;
    }
    return true;
  }

  /** As written, a non-empty name is never "equal" to itself, while two empty names are. */
  lemma NoSegmentAgreesSelf(q: QName)
    ensures NoSegmentAgrees(q, q) <==> |q.parts.vals| == 0
  {
    if |q.parts.vals| > 0 {
      assert Get(q.parts, q.parts.keys[0]) == Some(q.parts.vals[0]);
    }
  }

  /** As written, names of different lengths are never equal. */
  lemma NoSegmentAgreesLength(q: QName, other: QName)
    requires |q.parts.vals| != |other.parts.vals|
    ensures !NoSegmentAgrees(q, other)
  {
  }

  /** The comparison that `isEqualTo` is documented to make: the same segments in the same order. */
  predicate SameName(q: QName, other: QName) {
    q.parts.vals == other.parts.vals
  }

  /**
   * The comparison `isEqualTo` is documented to make, read key by key as its loop reads the names:
   * as many segments, and every segment of `q` equal to the one under the same key in `other`.
   */
  predicate KeysAgree(q: QName, other: QName) {
    && |q.parts.vals| == |other.parts.vals|
    && forall i :: 0 <= i < |q.parts.keys| ==> Get(other.parts, q.parts.keys[i]) == Some(q.parts.vals[i])
  }

  /** `isEqualTo` as evidently intended: the same loop, returning false at the first segment that differs. */
  method IsEqualToIntended(q: QName, other: QName) returns (r: bool)
    ensures r == KeysAgree(q, other)
  {
    if |q.parts.vals| != |other.parts.vals| {
      return false;
    }
    var i := 0;
    while i < |q.parts.keys|
      invariant 0 <= i <= |q.parts.keys|
      invariant forall j :: 0 <= j < i ==> Get(other.parts, q.parts.keys[j]) == Some(q.parts.vals[j])
    {
      if Get(other.parts, q.parts.keys[i]) != Some(q.parts.vals[i]) {
        return false;
      }
      i := i + 1;
    }
    return true;
  }

  /** On names whose keys are positions, the intended comparison is equality of the segments, and so reflexive. */
  lemma KeysAgreeSameName(q: QName, other: QName)
    requires IsList(q.parts) && IsList(other.parts)
    ensures KeysAgree(q, other) <==> SameName(q, other)
    ensures KeysAgree(q, q)
  {
    forall i | 0 <= i < |q.parts.keys|
      ensures Get(q.parts, q.parts.keys[i]) == Some(q.parts.vals[i])
    {
      GetList(q.parts, i);
    }
    if |q.parts.vals| == |other.parts.vals| {
      forall i | 0 <= i < |q.parts.keys|
        ensures Get(other.parts, q.parts.keys[i]) == Some(other.parts.vals[i])
      {
        GetList(other.parts, i);
      }
    }
  }

  /** The first position at `s` or later whose segment is `v`, or the length when there is none. */
  function FirstMatch(vals: seq<string>, v: Option<string>, s: nat := 0): (p: nat)
    requires s <= |vals|
    ensures s <= p <= |vals|
    ensures forall j :: s <= j < p ==> Some(vals[j]) != v
    ensures p < |vals| ==> Some(vals[p]) == v
    decreases |vals| - s
  {
    if s == |vals| || Some(vals[s]) == v then s else FirstMatch(vals, v, s + 1)
  }

  /** `search` is found, entry by key 0, 1, ..., at position `p` of `vals`. */
  predicate RunAt(vals: seq<string>, search: Arr, p: nat) {
    p + |search.vals| <= |vals| && forall j :: 0 <= j < |search.vals| ==> Get(search, j) == Some(vals[p + j])
  }

  /**
   * What `indexOf` computes: the key of the first segment equal to `search[0]`, provided the whole of
   * `search` follows from there, and -1 otherwise (it never looks at a later occurrence); -1 for an
   * empty search.
   */
  function FirstRunKey(q: QName, search: Arr): int {
    if |search.vals| == 0 then -1
    else
      var p := FirstMatch(q.parts.vals, Get(search, 0));
      if p < |q.parts.vals| && RunAt(q.parts.vals, search, p) then q.parts.keys[p] else -1
  }

  /** `$q->indexOf($search)`, with the loop that counts matched segments and remembers where they began. */
  method IndexOf(q: QName, search: Arr) returns (r: int)
    ensures r == FirstRunKey(q, search)
  {
    if |search.vals| == 0 {
      return -1;
    }
    var vals := q.parts.vals;
    var needed := |search.vals|;
    var found := 0;
    var foundAt: Option<nat> := None;
    var i := 0;
    ghost var p := FirstMatch(vals, Get(search, 0));
    while i < |vals|
      invariant 0 <= i <= |vals| && found <= needed
      invariant foundAt.None? ==> found == 0 && i <= p
      invariant foundAt.Some? ==> foundAt.value == p && p < |vals| && i == p + found
      invariant foundAt.Some? ==> forall j :: 0 <= j < found ==> Get(search, j) == Some(vals[p + j])
      invariant foundAt.Some? ==> found > 0
    {
      if found >= needed {
        break;
      }
      if Get(search, found) == Some(vals[i]) {
        if foundAt.None? {
          foundAt := Some(i);
        }
        found := found + 1;
      } else if foundAt.Some? {
        assert !RunAt(vals, search, p);
        break;
      }
      i := i + 1;
    }
    if found == needed {
      assert foundAt.Some? && RunAt(vals, search, p);
      return q.parts.keys[foundAt.value];
    }
    assert foundAt.Some? ==> !RunAt(vals, search, p);
    return -1;
  }

  /** Reading a list search by key is reading it by position, so a run is a slice equal to the search. */
  lemma RunAtList(vals: seq<string>, search: Arr, p: nat)
    requires IsList(search)
    ensures RunAt(vals, search, p) <==> p + |search.vals| <= |vals| && vals[p..p + |search.vals|] == search.vals
  {
    var n := |search.vals|;
    forall j | 0 <= j < n
      ensures Get(search, j) == Some(search.vals[j])
    {
      GetList(search, j);
    }
    if p + n <= |vals| {
      if RunAt(vals, search, p) {
        forall j | 0 <= j < n
          ensures vals[p..p + n][j] == search.vals[j]
        {
          assert Get(search, j) == Some(vals[p + j]);
        }
      }
      if vals[p..p + n] == search.vals {
        forall j | 0 <= j < n
          ensures Get(search, j) == Some(vals[p + j])
        {
          assert vals[p..p + n][j] == vals[p + j];
        }
      }
    }
  }

  /** On lists, the key is a position: a non-negative result is the first match of `search[0]`, followed by all of `search`. */
  lemma FirstRunKeyList(q: QName, search: Arr)
    requires IsList(q.parts) && IsList(search) && |search.vals| > 0
    ensures var p := FirstMatch(q.parts.vals, Some(search.vals[0]));
      FirstRunKey(q, search) >= 0 <==> p + |search.vals| <= |q.parts.vals| && q.parts.vals[p..p + |search.vals|] == search.vals
    ensures FirstRunKey(q, search) >= 0 ==> FirstRunKey(q, search) == FirstMatch(q.parts.vals, Some(search.vals[0]))
  {
    GetList(search, 0);
    var p := FirstMatch(q.parts.vals, Some(search.vals[0]));
    RunAtList(q.parts.vals, search, p);
  }

  /** Anchored at the root: the first run is at key 0 exactly when `search` is a prefix of the name. */
  lemma FirstRunKeyRoot(q: QName, search: Arr)
    requires IsList(q.parts) && IsList(search) && |search.vals| > 0
    ensures FirstRunKey(q, search) == 0 <==> |search.vals| <= |q.parts.vals| && q.parts.vals[..|search.vals|] == search.vals
  {
    FirstRunKeyList(q, search);
    var vals := q.parts.vals;
    var n := |search.vals|;
    if n <= |vals| && vals[..n] == search.vals {
      assert vals[0] == search.vals[0];
      assert FirstMatch(vals, Some(search.vals[0])) == 0;
      assert vals[0..n] == vals[..n];
    }
  }

  /**
   * `$q->replace($search, $replace, $index)`: the name with `search` spliced out for `replace` at the
   * key `indexOf` reports, when that key is `index` (or, with a negative `index`, whenever `search` is
   * found); otherwise a copy of the name. `array_splice` takes the key as a position.
   */
  function Replace(q: QName, search: Arr, replace: Arr, index: int := -1): (r: QName)
    ensures Truthful(r)
  {
    var at := FirstRunKey(q, search);
    if (index > -1 && at == index) || (index < 0 && at >= 0) then
      FromList(Splice(q.parts.vals, at, |search.vals|, replace.vals))
    else Make(q.parts)
  }

  /** Whether `Replace` splices, in terms of the search alone. */
  predicate Splices(q: QName, search: Arr, index: int) {
    var at := FirstRunKey(q, search);
    (index > -1 && at == index) || (index < 0 && at >= 0)
  }

  /** On names that are lists, replacing at position `i` leaves the segments before and after the run, with `replace` between. */
  lemma ReplaceList(q: QName, search: Arr, replace: Arr, index: int)
    requires IsList(q.parts) && Truthful(q) && IsList(search) && |search.vals| > 0
    requires forall v :: v in replace.vals ==> Truthy(v)
    ensures var vals := q.parts.vals;
      var p := FirstMatch(vals, Some(search.vals[0]));
      Splices(q, search, index) ==>
        Replace(q, search, replace, index).parts.vals == vals[..p] + replace.vals + vals[p + |search.vals|..]
    ensures !Splices(q, search, index) ==> Replace(q, search, replace, index) == q
  {
    FirstRunKeyList(q, search);
    var vals := q.parts.vals;
    var p := FirstMatch(vals, Some(search.vals[0]));
    if Splices(q, search, index) {
      var spliced := Splice(vals, p, |search.vals|, replace.vals);
      assert spliced == vals[..p] + replace.vals + vals[p + |search.vals|..];
      assert forall v :: v in spliced ==> v in vals || v in replace.vals;
    }
  }

  /** Root-anchored replacement, as renaming a namespace uses it: it splices exactly when `search` is a prefix. */
  lemma ReplaceAtRoot(q: QName, search: Arr, replace: Arr)
    requires IsList(q.parts) && Truthful(q) && IsList(search) && |search.vals| > 0
    requires forall v :: v in replace.vals ==> Truthy(v)
    ensures var vals := q.parts.vals;
      var n := |search.vals|;
      if n <= |vals| && vals[..n] == search.vals
      then Replace(q, search, replace, 0).parts.vals == replace.vals + vals[n..]
      else Replace(q, search, replace, 0) == q
  {
    FirstRunKeyRoot(q, search);
    ReplaceList(q, search, replace, 0);
    FirstRunKeyList(q, search);
  }

  /**
   * What `indexOf` is documented to return: the 0-based position of the run, under the same rules
   * (the first match of `search[0]`, all of `search` from there, no later occurrence), or -1.
   */
  function FirstRunPos(q: QName, search: Arr): (r: int)
    ensures r >= 0 ==> r < |q.parts.vals| && RunAt(q.parts.vals, search, r) && r == FirstMatch(q.parts.vals, Get(search, 0))
    ensures r < 0 ==> r == -1
  {
    if |search.vals| == 0 then -1
    else
      var p := FirstMatch(q.parts.vals, Get(search, 0));
      if p < |q.parts.vals| && RunAt(q.parts.vals, search, p) then p else -1
  }

  /** On names whose keys are positions, the key `indexOf` reports is the documented position. */
  lemma FirstRunPosList(q: QName, search: Arr)
    requires IsList(q.parts)
    ensures FirstRunPos(q, search) == FirstRunKey(q, search)
  {
  }

  /** `replace` as evidently intended: the splice at the position of the run rather than at its key. */
  function ReplaceIntended(q: QName, search: Arr, replace: Arr, index: int := -1): (r: QName)
    ensures Truthful(r)
  {
    var at := FirstRunPos(q, search);
    if (index > -1 && at == index) || (index < 0 && at >= 0) then
      FromList(Splice(q.parts.vals, at, |search.vals|, replace.vals))
    else Make(q.parts)
  }

  /**
   * Whatever its keys, a name with the run of `search` at position `p` becomes the segments before
   * it, then `replace`, then the segments after it; a name without the run is left as it was.
   */
  lemma ReplaceIntendedSplices(q: QName, search: Arr, replace: Arr, index: int)
    requires Truthful(q) && IsList(search) && |search.vals| > 0
    requires forall v :: v in replace.vals ==> Truthy(v)
    ensures var vals := q.parts.vals;
      var p := FirstRunPos(q, search);
      var n := |search.vals|;
      if p >= 0 && (index < 0 || p == index)
      then vals[p..p + n] == search.vals && ReplaceIntended(q, search, replace, index).parts.vals == vals[..p] + replace.vals + vals[p + n..]
      else ReplaceIntended(q, search, replace, index) == q
  {
    var vals := q.parts.vals;
    var p := FirstRunPos(q, search);
    if p >= 0 {
      RunAtList(vals, search, p);
      if index < 0 || p == index {
        var spliced := Splice(vals, p, |search.vals|, replace.vals);
        assert forall v :: v in spliced ==> v in vals || v in replace.vals;
      }
    }
  }

  /** On names whose keys are positions, the intended replacement is the replacement as written. */
  lemma ReplaceIntendedList(q: QName, search: Arr, replace: Arr, index: int)
    requires IsList(q.parts)
    ensures ReplaceIntended(q, search, replace, index) == Replace(q, search, replace, index)
  {
    FirstRunPosList(q, search);
  }

  /**
   * As written, `indexOf` on `fromString('\\A\\B')`, whose segments keep the keys 1 and 2, reports 1 for
   * `['A']`, and `replace(['A'], ['X'])` splices at position 1: the result is `A\\X`, not `X\\B`.
   */
  lemma IndexOfKeyCounterexample()
    ensures var q := FromString([SEP] + "A" + [SEP] + "B");
      && q.parts == StrArray([1, 2], ["A", "B"])
      && FirstRunKey(q, List(["A"])) == 1
      && FirstRunPos(q, List(["A"])) == 0
      && Replace(q, List(["A"]), List(["X"])).parts.vals == ["A", "X"]
      && ReplaceIntended(q, List(["A"]), List(["X"])).parts.vals == ["X", "B"]
  {
    var q := FromString([SEP] + "A" + [SEP] + "B");
    LeadingEmptyKeys();
    var search := List(["A"]);
    GetList(search, 0);
    assert FirstMatch(q.parts.vals, Get(search, 0)) == 0;
    assert RunAt(q.parts.vals, search, 0);
    assert FirstRunKey(q, search) == 1;
    assert Splice(["A", "B"], 1, 1, ["X"]) == ["A", "X"];
    assert Splice(["A", "B"], 0, 1, ["X"]) == ["X", "B"];
    assert FromList(["A", "X"]).parts == List(["A", "X"]);
    assert FromList(["X", "B"]).parts == List(["X", "B"]);
  }

  /** The name of `\\A\\B` keeps its two segments under the keys they had after the empty first piece. */
  lemma LeadingEmptyKeys()
    ensures FromString([SEP] + "A" + [SEP] + "B").parts == StrArray([1, 2], ["A", "B"])
  {
    ExplodeExample();
    var l := List(["", "A", "B"]);
    var t := Tail(l);
    assert t == StrArray([1, 2], ["A", "B"]);
    assert Tail(t) == StrArray([2], ["B"]);
    assert Filter(Tail(t)) == Tail(t);
    assert Filter(t) == t;
    assert Filter(l) == t;
  }

  /** The string `\\A\\B` splits into an empty piece, `A` and `B`. */
  lemma ExplodeExample()
    ensures Explode([SEP] + "A" + [SEP] + "B") == ["", "A", "B"]
  {
    var b := "B";
    var sb := [SEP] + b;
    var asb := "A" + sb;
    var s := [SEP] + asb;
    assert Explode(b) == ["B"];
    assert sb[1..] == b;
    assert Explode(sb) == ["", "B"];
    assert asb[1..] == sb && asb[0] == 'A' && asb[0] != SEP;
    assert ['A'] + "" == "A";
    assert Explode(asb) == ["A", "B"];
    assert s[1..] == asb;
    assert s == [SEP] + "A" + [SEP] + "B";
  }

  /** `toString()`: the truthy segments joined by backslashes. */
  function ToString(q: QName): (s: string)
    ensures Truthful(q) ==> s == Implode(q.parts.vals)
  {
    Implode(Filter(q.parts).vals)
  }

  /** `QName::fromString($s)`: the truthy pieces of `s` between backslashes. */
  function FromString(s: string): (q: QName)
    ensures Truthful(q) && forall v :: v in q.parts.vals ==> v in Explode(s)
    ensures forall v :: v in q.parts.vals ==> SEP !in v
    ensures (forall v :: v in Explode(s) ==> Truthy(v)) ==> q.parts == List(Explode(s)) && IsList(q.parts)
  {
    FromList(Explode(s))
  }

  /** A plain name survives the trip through its string: `fromString(toString(q))` is `q`. */
  lemma FromStringToString(q: QName)
    requires Plain(q)
    ensures FromString(ToString(q)) == q
  {
    var vs := q.parts.vals;
    if |vs| == 0 {
      assert Explode("") == [""];
      assert Filter(Tail(List([""]))) == Tail(List([""]));
      assert q.parts == StrArray([], []);
    } else {
      ExplodeImplode(vs);
      assert q.parts == List(vs);
    }
  }

  /** A string without empty or `"0"` pieces survives the trip through a name: `toString(fromString(s))` is `s`. */
  lemma ToStringFromString(s: string)
    requires forall p :: p in Explode(s) ==> Truthy(p)
    ensures ToString(FromString(s)) == s
  {
    ImplodeExplode(s);
  }

  /** `QName::merge($a, $b)`: `a`'s segments then `b`'s, renumbered. */
  function Merge(a: QName, b: QName): (r: QName)
    ensures Truthful(a) && Truthful(b) ==> r.parts == List(a.parts.vals + b.parts.vals)
  {
    FromList(a.parts.vals + b.parts.vals)
  }

  /** `QName::fromNsAndName($ns, $name)`: the namespace's segments followed by the name. */
  function FromNsAndName(ns: seq<string>, name: string): (r: QName)
    ensures r.parts.vals == FromList(ns).parts.vals + (if Truthy(name) then [name] else [])
  {
    FromListFilters(ns, [name]);
    FilterSingle(name);
    FromList(ns + [name])
  }

  /** Splitting a name into its parent and its name and joining them again gives the name's segments. */
  lemma SplitJoin(q: QName)
    requires Truthful(q) && |q.parts.vals| > 0
    ensures FromNsAndName(GetParent(q).parts.vals, GetName(q)).parts.vals == q.parts.vals
  {
    ParentAndName(q);
    var p := GetParent(q).parts.vals;
    assert FromList(p).parts.vals == p;
  }

  /** Lists of clean segments are kept as they are, so the documented examples can be read off the list. */
  lemma CleanList(vs: seq<string>)
    requires forall v :: v in vs ==> Truthy(v) && SEP !in v
    ensures FromList(vs).parts == List(vs) && Plain(FromList(vs))
  {
  }
}
