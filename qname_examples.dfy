/** The behaviour the repository's own tests document for qualified names. */
module QNameExamples {
  import opened Wrappers
  import opened Php
  import opened QNames

  /** Constructing `Test\Ns` from clean parts keeps them. */
  lemma ConstructExample(vs: seq<string>)
    requires vs == ["Test", "Ns"]
    ensures FromList(vs).parts.vals == vs
  {
    CleanList(vs);
  }

  /** The parent of `Foo\Bar\Baz` is `Foo\Bar` and its name is `Baz`. */
  lemma ParentAndNameExample(q: QName)
    requires q.parts == List(["Foo", "Bar", "Baz"])
    ensures GetParent(q).parts.vals == ["Foo", "Bar"]
    ensures GetName(q) == "Baz"
  {
    assert q.parts.vals[..2] == ["Foo", "Bar"];
  }

  /** `Foo\Bar` with the name `Baz` is `Foo\Bar\Baz`. */
  lemma FromNsAndNameExample(ns: seq<string>)
    requires ns == ["Foo", "Bar"]
    ensures FromNsAndName(ns, "Baz").parts.vals == ["Foo", "Bar", "Baz"]
  {
    CleanList(ns);
  }

  /** Joining `Foo`, `Bar` and `Baz` puts one separator between each. */
  lemma ImplodeExample(vs: seq<string>)
    requires vs == ["Foo", "Bar", "Baz"]
    ensures Implode(vs) == "Foo" + [SEP] + "Bar" + [SEP] + "Baz"
  {
    assert Implode(vs[2..]) == "Baz";
    assert Implode(vs[1..]) == "Bar" + [SEP] + "Baz";
  }

  /** `Foo\Bar\Baz` prints as `Foo\Bar\Baz`. */
  lemma ToStringExample(q: QName)
    requires q.parts == List(["Foo", "Bar", "Baz"])
    ensures ToString(q) == "Foo" + [SEP] + "Bar" + [SEP] + "Baz"
  {
    assert Truthful(q);
    ImplodeExample(q.parts.vals);
  }

  /** In `Foo\Bar\Baz`, `Foo` is at 0 and `Baz` at 2. */
  lemma IndexOfFirstLastExample(q: QName, foo: Arr, baz: Arr)
    requires q.parts == List(["Foo", "Bar", "Baz"]) && foo == List(["Foo"]) && baz == List(["Baz"])
    ensures FirstRunKey(q, foo) == 0
    ensures FirstRunKey(q, baz) == 2
  {
    var vs := q.parts.vals;
    FirstRunKeyList(q, foo);
    FirstRunKeyList(q, baz);
    assert FirstMatch(vs, Some("Foo")) == 0;
    assert FirstMatch(vs, Some("Baz")) == 2;
    assert vs[0..1] == ["Foo"] && vs[2..3] == ["Baz"];
  }

  /** In `Foo\Bar\Baz`, both `Bar` and `Bar\Baz` are at 1. */
  lemma IndexOfMiddleExample(q: QName, bar: Arr, barBaz: Arr)
    requires q.parts == List(["Foo", "Bar", "Baz"]) && bar == List(["Bar"]) && barBaz == List(["Bar", "Baz"])
    ensures FirstRunKey(q, bar) == 1
    ensures FirstRunKey(q, barBaz) == 1
  {
    var vs := q.parts.vals;
    FirstRunKeyList(q, bar);
    FirstRunKeyList(q, barBaz);
    assert FirstMatch(vs, Some("Bar")) == 1;
    assert vs[1..2] == ["Bar"] && vs[1..3] == ["Bar", "Baz"];
  }

  /** `Lorem` is not in `Foo\Bar\Baz`. */
  lemma IndexOfAbsentExample(q: QName, lorem: Arr)
    requires q.parts == List(["Foo", "Bar", "Baz"]) && lorem == List(["Lorem"])
    ensures FirstRunKey(q, lorem) == -1
  {
    FirstRunKeyList(q, lorem);
    assert FirstMatch(q.parts.vals, Some("Lorem")) == 3;
  }

  /** `Bar\Damn` is not a run of `Foo\Bar\Baz\Damn`: after `Bar` comes `Baz`. */
  lemma IndexOfBrokenRunExample(q: QName, barDamn: Arr)
    requires q.parts == List(["Foo", "Bar", "Baz", "Damn"]) && barDamn == List(["Bar", "Damn"])
    ensures FirstRunKey(q, barDamn) == -1
  {
    var vs := q.parts.vals;
    FirstRunKeyList(q, barDamn);
    assert FirstMatch(vs, Some("Bar")) == 1;
    assert vs[1..3] == ["Bar", "Baz"];
  }
}
