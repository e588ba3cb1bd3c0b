/**
 * The part of PHP's runtime that the name-rewriting core relies on: the truthiness of strings,
 * integer-keyed string arrays (which `array_filter` leaves with gaps in their keys), string-keyed
 * arrays (which remember the order in which keys were first stored), `explode`/`implode`/`trim`
 * on the namespace separator, and `array_splice`.
 */
module Php {
  import opened Wrappers

  /** The namespace separator, a single backslash. */
  const SEP: char := '\\'

  /** PHP's truthiness of a string: only "" and "0" are falsy. */
  predicate Truthy(s: string) {
    s != "" && s != "0"
  }

  /** A PHP array of strings with integer keys: its keys and its values, in iteration order. */
  datatype StrArray = StrArray(keys: seq<int>, vals: seq<string>)

  /** A well-formed integer-keyed array has one key per value. */
  type Arr = a: StrArray | |a.keys| == |a.vals| witness StrArray([], [])

  /** The array without its first entry. */
  function Tail(a: Arr): (r: Arr)
    requires |a.vals| > 0
    ensures r.keys == a.keys[1..] && r.vals == a.vals[1..]
  {
    StrArray(a.keys[1..], a.vals[1..])
  }

  /** The keys of a PHP list: 0, 1, ..., n - 1. */
  function Positions(n: nat): (r: seq<int>)
    ensures |r| == n
    ensures forall i :: 0 <= i < n ==> r[i] == i
  {
    seq(n, i => i)
  }

  /** A PHP list literal: the given values under the keys 0, 1, ..., n - 1. */
  function List(vs: seq<string>): (a: Arr)
    ensures a.vals == vs && IsList(a)
  {
    StrArray(Positions(|vs|), vs)
  }

  /** True if every key is the position of its entry, as PHP lists have. */
  predicate IsList(a: Arr) {
    forall i :: 0 <= i < |a.keys| ==> a.keys[i] == i
  }

  /** `$a[$k] ?? null`: the value stored under key `k`, or null. */
  function Get(a: Arr, k: int): (r: Option<string>)
    ensures r.Some? ==> r.value in a.vals
    ensures r.None? <==> k !in a.keys
    ensures |a.keys| > 0 && a.keys[0] == k ==> r == Some(a.vals[0])
    decreases |a.vals|
  {
    if |a.keys| == 0 then None
    else if a.keys[0] == k then Some(a.vals[0])
    else Get(Tail(a), k)
  }

  /** On a list, the key `k` is the position `k`. */
  lemma {:induction false} GetList(a: Arr, k: int)
    requires IsList(a) && 0 <= k < |a.vals|
    ensures Get(a, k) == Some(a.vals[k])
  {
    // Every key before position k is smaller than k.
    var b := a;
    var i := 0;
    while i < k
      invariant 0 <= i <= k
      invariant b.keys == a.keys[i..] && b.vals == a.vals[i..]
      invariant Get(b, k) == Get(a, k)
    {
      assert b.keys[0] == i;
      b := Tail(b);
      i := i + 1;
    }
    assert b.keys[0] == k;
  }

  /**
   * `array_filter($a)` without a callback: the falsy strings are dropped and every other entry keeps
   * its key and its place.
   */
  function Filter(a: Arr): (r: Arr)
    ensures |r.vals| <= |a.vals|
    ensures forall v :: v in r.vals ==> Truthy(v) && v in a.vals
    ensures (forall v :: v in a.vals ==> Truthy(v)) ==> r == a
    ensures forall j :: 0 <= j < |r.keys| ==> r.keys[j] in a.keys
    decreases |a.vals|
  {
    if |a.vals| == 0 then a
    else
      var rest := Filter(Tail(a));
      assert a.keys == [a.keys[0]] + a.keys[1..] && a.vals == [a.vals[0]] + a.vals[1..];
      if Truthy(a.vals[0]) then StrArray([a.keys[0]] + rest.keys, [a.vals[0]] + rest.vals) else rest
  }

  /** The truthy strings of `vs`, in order. */
  function KeepTruthy(vs: seq<string>): (r: seq<string>)
    ensures forall v :: v in r <==> v in vs && Truthy(v)
    decreases |vs|
  {
    if |vs| == 0 then []
    else
      var rest := KeepTruthy(vs[1..]);
      assert forall v :: v in vs <==> v == vs[0] || v in vs[1..];
      if Truthy(vs[0]) then [vs[0]] + rest else rest
  }

  /** The values `array_filter` keeps are the truthy ones, in order, whatever the keys. */
  lemma {:induction false} FilterKeepsTruthy(a: Arr)
    ensures Filter(a).vals == KeepTruthy(a.vals)
    decreases |a.vals|
  {
    if |a.vals| > 0 {
      FilterKeepsTruthy(Tail(a));
      assert a.vals[1..] == Tail(a).vals;
    }
  }

  /** Keeping the truthy strings of a concatenation keeps those of each part. */
  lemma {:induction false} KeepTruthyConcat(xs: seq<string>, ys: seq<string>)
    ensures KeepTruthy(xs + ys) == KeepTruthy(xs) + KeepTruthy(ys)
    decreases |xs|
  {
    if |xs| == 0 {
      assert xs + ys == ys;
    } else {
      assert (xs + ys)[0] == xs[0] && (xs + ys)[1..] == xs[1..] + ys;
      KeepTruthyConcat(xs[1..], ys);
      var h := if Truthy(xs[0]) then [xs[0]] else [];
      assert KeepTruthy(xs) == h + KeepTruthy(xs[1..]);
      ConcatAssoc(h, KeepTruthy(xs[1..]), KeepTruthy(ys));
    }
  }

  /** The values that `array_filter` keeps do not depend on the keys. */
  lemma FilterValues(a: Arr, b: Arr)
    requires a.vals == b.vals
    ensures Filter(a).vals == Filter(b).vals
  {
    FilterKeepsTruthy(a);
    FilterKeepsTruthy(b);
  }

  /** Filtering keeps the order: filtering two lists one after the other filters their concatenation. */
  lemma FilterConcat(xs: seq<string>, ys: seq<string>)
    ensures Filter(List(xs + ys)).vals == Filter(List(xs)).vals + Filter(List(ys)).vals
  {
    FilterKeepsTruthy(List(xs + ys));
    FilterKeepsTruthy(List(xs));
    FilterKeepsTruthy(List(ys));
    KeepTruthyConcat(xs, ys);
  }

  /** A one-segment list keeps its segment if and only if the segment is truthy. */
  lemma FilterSingle(v: string)
    ensures Filter(List([v])).vals == if Truthy(v) then [v] else []
  {
    assert Tail(List([v])).vals == [];
  }

  /** Every entry of `a` is stored at the position of `vs` that its key names. */
  predicate KeysIndex(a: Arr, vs: seq<string>) {
    forall j :: 0 <= j < |a.keys| ==> 0 <= a.keys[j] < |vs| && vs[a.keys[j]] == a.vals[j]
  }

  /** The keys of `a` increase strictly. */
  predicate KeysIncrease(a: Arr) {
    forall j, k :: 0 <= j < k < |a.keys| ==> a.keys[j] < a.keys[k]
  }

  /** Filtering keeps every entry at the position of `vs` that its key names. */
  lemma {:induction false} FilterKeysIndex(a: Arr, vs: seq<string>)
    requires KeysIndex(a, vs)
    ensures KeysIndex(Filter(a), vs)
    decreases |a.vals|
  {
    if |a.vals| > 0 {
      FilterKeysIndex(Tail(a), vs);
    }
  }

  /** Filtering keeps the keys increasing. */
  lemma {:induction false} FilterKeysIncrease(a: Arr)
    requires KeysIncrease(a)
    ensures KeysIncrease(Filter(a))
    decreases |a.vals|
  {
    if |a.vals| > 0 {
      var t := Tail(a);
      assert KeysIncrease(t) by {
        forall j, k | 0 <= j < k < |t.keys|
          ensures t.keys[j] < t.keys[k]
        {
          assert t.keys[j] == a.keys[j + 1] && t.keys[k] == a.keys[k + 1];
        }
      }
      FilterKeysIncrease(t);
      var rest := Filter(t);
      if Truthy(a.vals[0]) {
        assert forall x :: x in t.keys ==> a.keys[0] < x by {
          forall x | x in t.keys
            ensures a.keys[0] < x
          {
            var i :| 0 <= i < |t.keys| && t.keys[i] == x;
            assert x == a.keys[i + 1];
          }
        }
        ConsKeysIncrease(a.keys[0], a.vals[0], rest, t.keys);
      }
    }
  }

  /** A key below every key of an array with increasing keys can go first. */
  lemma ConsKeysIncrease(k: int, v: string, r: Arr, bound: seq<int>)
    requires KeysIncrease(r)
    requires forall j :: 0 <= j < |r.keys| ==> r.keys[j] in bound
    requires forall x :: x in bound ==> k < x
    ensures KeysIncrease(StrArray([k] + r.keys, [v] + r.vals))
  {
    var ks := [k] + r.keys;
    forall i, j | 0 <= i < j < |ks|
      ensures ks[i] < ks[j]
    {
      assert ks[j] == r.keys[j - 1];
      if i > 0 {
        assert ks[i] == r.keys[i - 1];
      } else {
        assert r.keys[j - 1] in bound;
      }
    }
  }

  /** A list has both facts about its own values. */
  lemma ListKeys(vs: seq<string>)
    ensures KeysIndex(List(vs), vs) && KeysIncrease(List(vs))
  {
  }

  /**
   * A PHP array with string keys: the value stored under each key, and the keys in the order in
   * which they were first stored (the iteration order of `foreach`).
   */
  datatype Dict<V> = Dict(order: seq<string>, entries: map<string, V>) {

    /** The order lists every key exactly once. */
    ghost predicate Valid() {
      && (forall i, j :: 0 <= i < j < |order| ==> order[i] != order[j])
      && (forall k :: k in entries <==> k in order)
    }

    /** `$a[$k] = $v`: a new key goes last, a key already present keeps its place. */
    function Put(k: string, v: V): (r: Dict<V>)
      ensures r.entries == entries[k := v]
      ensures k in entries ==> r.order == order
      ensures k !in entries ==> r.order == order + [k]
      ensures Valid() ==> r.Valid()
    {
      Dict(if k in entries then order else order + [k], entries[k := v])
    }

    /** `$a[$k] ?? null`. */
    function Get(k: string): (r: Option<V>)
      ensures r.Some? <==> k in entries
      ensures r.Some? ==> r.value == entries[k]
    {
      if k in entries then Some(entries[k]) else None
    }
  }

  /** `[]`, the empty array. */
  function EmptyDict<V>(): (d: Dict<V>)
    ensures d.Valid() && d.order == [] && d.entries == map[]
  {
    Dict([], map[])
  }

  /** A second store under the same key replaces the first and leaves the key where the first put it. */
  lemma PutPut<V>(d: Dict<V>, k: string, v1: V, v2: V)
    ensures d.Put(k, v1).Put(k, v2) == d.Put(k, v2)
  {
    assert d.Put(k, v1).Put(k, v2).entries == d.Put(k, v2).entries;
  }

  /** After storing `v` under `k`, reading `k` gives `v` and every other key reads as before. */
  lemma PutThenGet<V>(d: Dict<V>, k: string, v: V, k': string)
    ensures d.Put(k, v).Get(k) == Some(v)
    ensures k' != k ==> d.Put(k, v).Get(k') == d.Get(k')
  {
  }

  /** `explode('\\', $s)`: the pieces of `s` between the separators; there is always at least one. */
  function Explode(s: string): (r: seq<string>)
    ensures |r| >= 1
    ensures forall p :: p in r ==> SEP !in p
    ensures SEP !in s ==> r == [s]
  {
    if |s| == 0 then [""]
    else
      var rest := Explode(s[1..]);
      if s[0] == SEP then [""] + rest
      else
        assert forall p :: p in rest[1..] ==> p in rest;
        assert s == [s[0]] + s[1..];
        [[s[0]] + rest[0]] + rest[1..]
  }

  /** The total length of the values. */
  function Lengths(vs: seq<string>): nat {
    if |vs| == 0 then 0 else |vs[0]| + Lengths(vs[1..])
  }

  /** `implode('\\', $vs)`: the values joined by single separators. */
  function Implode(vs: seq<string>): (s: string)
    ensures |vs| == 1 ==> s == vs[0]
    ensures |vs| == 0 ==> s == ""
    ensures |vs| > 0 ==> |s| == Lengths(vs) + |vs| - 1
    ensures |vs| > 0 ==> s[..|vs[0]|] == vs[0]
    ensures |vs| > 1 ==> s[|vs[0]|] == SEP
  {
    if |vs| == 0 then ""
    else if |vs| == 1 then vs[0]
    else
      vs[0] + [SEP] + Implode(vs[1..])
  }

  /** Exploding a piece without separators, followed by a separator, yields that piece first. */
  lemma {:induction false} ExplodeAfterPiece(a: string, b: string)
    requires SEP !in a
    ensures Explode(a + [SEP] + b) == [a] + Explode(b)
  {
    var s := a + [SEP] + b;
    if |a| == 0 {
      assert s[0] == SEP && s[1..] == b;
    } else {
      assert s[0] == a[0] != SEP;
      assert s[1..] == a[1..] + [SEP] + b;
      ExplodeAfterPiece(a[1..], b);
      var rest := Explode(s[1..]);
      assert rest == [a[1..]] + Explode(b);
      assert rest[0] == a[1..] && rest[1..] == Explode(b);
      assert [a[0]] + a[1..] == a;
    }
  }

  /** `explode` undoes `implode` when no value contains the separator and there is at least one value. */
  lemma {:induction false} ExplodeImplode(vs: seq<string>)
    requires |vs| >= 1
    requires forall v :: v in vs ==> SEP !in v
    ensures Explode(Implode(vs)) == vs
  {
    if |vs| > 1 {
      ExplodeImplode(vs[1..]);
      ExplodeAfterPiece(vs[0], Implode(vs[1..]));
      assert [vs[0]] + vs[1..] == vs;
    }
  }

  /** `implode` undoes `explode`: splitting a string and joining the pieces gives the string back. */
  lemma {:induction false} ImplodeExplode(s: string)
    ensures Implode(Explode(s)) == s
  {
    if |s| > 0 {
      ImplodeExplode(s[1..]);
      var rest := Explode(s[1..]);
      if s[0] == SEP {
        assert ([""] + rest)[1..] == rest;
      } else if |rest| == 1 {
        assert Implode([[s[0]] + rest[0]]) == [s[0]] + s[1..];
      } else {
        var r := [[s[0]] + rest[0]] + rest[1..];
        assert r[1..] == rest[1..];
        assert Implode(rest) == rest[0] + [SEP] + Implode(rest[1..]);
      }
    }
  }

  /** `ltrim($s, '\\')`: the suffix left once the leading separators are removed. */
  function TrimLeft(s: string): (r: string)
    ensures |r| <= |s| && r == s[|s| - |r|..]
    ensures forall k :: 0 <= k < |s| - |r| ==> s[k] == SEP
    ensures |r| > 0 ==> r[0] != SEP
  {
    if |s| > 0 && s[0] == SEP then TrimLeft(s[1..]) else s
  }

  /** `rtrim($s, '\\')`: the prefix left once the trailing separators are removed. */
  function TrimRight(s: string): (r: string)
    ensures |r| <= |s| && r == s[..|r|]
    ensures forall k :: |r| <= k < |s| ==> s[k] == SEP
    ensures |r| > 0 ==> r[|r| - 1] != SEP
  {
    if |s| > 0 && s[|s| - 1] == SEP then TrimRight(s[..|s| - 1]) else s
  }

  /** `trim($s, '\\')`: `s` without its leading and trailing separators. */
  function Trim(s: string): (r: string)
    ensures |r| > 0 ==> r[0] != SEP && r[|r| - 1] != SEP
    ensures (|s| == 0 || (s[0] != SEP && s[|s| - 1] != SEP)) ==> r == s
  {
    TrimRight(TrimLeft(s))
  }

  /** Trimming removes exactly a run of separators at each end and keeps what is between. */
  lemma TrimIsInfix(s: string)
    ensures exists i, j ::
      && 0 <= i <= j <= |s| && Trim(s) == s[i..j]
      && (forall k :: 0 <= k < i ==> s[k] == SEP)
      && (forall k :: j <= k < |s| ==> s[k] == SEP)
  {
    var l := TrimLeft(s);
    var i := |s| - |l|;
    var j := i + |Trim(s)|;
    assert Trim(s) == s[i..j];
  }

  /** Trimming twice is trimming once. */
  lemma TrimIdempotent(s: string)
    ensures Trim(Trim(s)) == Trim(s)
  {
  }

  /**
   * `array_splice($list, $offset, $length, $replacement)` for a non-negative offset, as the new list:
   * an offset past the end is moved to the end, the removed run stops at the end of the list, and
   * the result is renumbered.
   */
  function Splice(vs: seq<string>, offset: nat, length: nat, repl: seq<string>): (r: seq<string>)
    ensures offset + length <= |vs| ==> r == vs[..offset] + repl + vs[offset + length..]
    ensures |vs| <= offset ==> r == vs + repl
    ensures |r| == |vs| + |repl| - (if offset >= |vs| then 0 else if offset + length <= |vs| then length else |vs| - offset)
  {
    var o := if offset <= |vs| then offset else |vs|;
    var e := if o + length <= |vs| then o + length else |vs|;
    vs[..o] + repl + vs[e..]
  }
}
