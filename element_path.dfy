/**
  The XML element tree that gisMetadata.py works on, and the part of
  ElementTree's `find` that it relies on: plain paths `a/b/c` of tag names,
  evaluated from the document root.

  A node is identified by its address: the child index taken at each level
  below the root. ElementPath evaluates `a/b/c` as a chain of child steps,
  each run over every node the previous step produced, in order, and `find`
  keeps the first result. That result is the matching address that is least
  in lexicographic order, which for addresses of one length is document order.
 */
module ElementPath {
  import opened Wrappers

  type Tag = string

  /** An element: its tag, its text (None when it has none), its attributes
      and its children in document order. */
  datatype Element = Element(tag: Tag, text: Option<string>, attrib: map<string, string>, children: seq<Element>)

  /** A plain path `a/b/c`, split at its slashes. */
  type Path = seq<Tag>

  /** The child index taken at each level, starting below the root. */
  type Address = seq<nat>

  /** The node at address `a`, if there is one. */
  function Walk(e: Element, a: Address): Option<Element>
    decreases a
  {
    if a == [] then Some(e)
    else if a[0] < |e.children| then Walk(e.children[a[0]], a[1..])
    else None
  }

  /** `a` leads from `e` through children whose tags spell out `p`. */
  ghost predicate IsMatch(e: Element, p: Path, a: Address)
    decreases p
  {
    && 0 < |p| == |a|
    && a[0] < |e.children|
    && e.children[a[0]].tag == p[0]
    && (|p| == 1 || IsMatch(e.children[a[0]], p[1..], a[1..]))
  }

  /** Lexicographic order on addresses. */
  predicate LexLeq(a: Address, b: Address)
    decreases a
  {
    a == [] || (b != [] && (a[0] < b[0] || (a[0] == b[0] && LexLeq(a[1..], b[1..]))))
  }

  /** `a` matches `p` and comes before every other match. */
  ghost predicate IsFirstMatch(e: Element, p: Path, a: Address)
  {
    IsMatch(e, p, a) && forall b :: IsMatch(e, p, b) ==> LexLeq(a, b)
  }

  ghost predicate IsPrefix(b: Address, a: Address)
  {
    |b| <= |a| && a[..|b|] == b
  }

  lemma {:induction false} MatchIsNode(e: Element, p: Path, a: Address)
    requires IsMatch(e, p, a)
    ensures Walk(e, a).Some? && Walk(e, a).value.tag == p[|p| - 1]
    decreases p
  {
    if |p| > 1 {
      MatchIsNode(e.children[a[0]], p[1..], a[1..]);
    }
  }

  lemma {:induction false} LexLeqAntisymmetric(a: Address, b: Address)
    requires |a| == |b| && LexLeq(a, b) && LexLeq(b, a)
    ensures a == b
    decreases a
  {
    if a != [] {
      LexLeqAntisymmetric(a[1..], b[1..]);
      assert a == [a[0]] + a[1..] && b == [b[0]] + b[1..];
    }
  }

  /** There is at most one first match. */
  lemma FirstMatchUnique(e: Element, p: Path)
    ensures forall a, b :: IsFirstMatch(e, p, a) && IsFirstMatch(e, p, b) ==> a == b
  {
    forall a, b | IsFirstMatch(e, p, a) && IsFirstMatch(e, p, b)
      ensures a == b
    {
      LexLeqAntisymmetric(a, b);
    }
  }

  /** The search `find` performs: the children of `e` from index `i` on,
      each one whose tag is `p[0]` searched in turn for the rest of `p`. */
  function FirstMatchFrom(e: Element, i: nat, p: Path): Option<Address>
    requires 0 < |p| && i <= |e.children|
    decreases e, |e.children| - i
  {
    if i == |e.children| then None
    else if e.children[i].tag == p[0] && |p| == 1 then Some([i])
    else if e.children[i].tag == p[0] && FirstMatchFrom(e.children[i], 0, p[1..]).Some? then
      Some([i] + FirstMatchFrom(e.children[i], 0, p[1..]).value)
    else FirstMatchFrom(e, i + 1, p)
  }

  lemma {:induction false} FirstMatchFromSpec(e: Element, i: nat, p: Path)
    requires 0 < |p| && i <= |e.children|
    ensures FirstMatchFrom(e, i, p).Some? ==>
              var a := FirstMatchFrom(e, i, p).value;
              IsMatch(e, p, a) && i <= a[0] &&
              forall b :: IsMatch(e, p, b) && i <= b[0] ==> LexLeq(a, b)
    ensures FirstMatchFrom(e, i, p).None? ==>
              forall b :: IsMatch(e, p, b) ==> b[0] < i
    decreases e, |e.children| - i
  {
    if i < |e.children| {
      var c := e.children[i];
      FirstMatchFromSpec(e, i + 1, p);
      forall b | IsMatch(e, p, b) && b[0] == i
        ensures c.tag == p[0]
        ensures |p| == 1 ==> b == [i]
        ensures |p| > 1 ==> IsMatch(c, p[1..], b[1..]) && b == [i] + b[1..]
      {
      }
      if c.tag == p[0] && |p| > 1 {
        FirstMatchFromSpec(c, 0, p[1..]);
        var s := FirstMatchFrom(c, 0, p[1..]);
        if s.Some? {
          var a := [i] + s.value;
          assert a[1..] == s.value;
          assert IsMatch(e, p, a);
          forall b | IsMatch(e, p, b) && i <= b[0]
            ensures LexLeq(a, b)
          {
            if b[0] == i {
              assert LexLeq(s.value, b[1..]);
            }
          }
        }
      }
    }
  }

  /** The address ElementTree's `find(p)` resolves to, if any: the first match. */
  function FirstMatch(e: Element, p: Path): (r: Option<Address>)
    ensures r.Some? ==> IsFirstMatch(e, p, r.value) && Walk(e, r.value).Some?
    ensures r.None? ==> forall b :: !IsMatch(e, p, b)
  {
    if p == [] then None
    else
      FirstMatchFromSpec(e, 0, p);
      var m := FirstMatchFrom(e, 0, p);
      if m.Some? then MatchIsNode(e, p, m.value); m else m
  }

  /** ElementTree's `find(p)`: the element at the first match, or None. */
  function Find(e: Element, p: Path): (r: Option<Element>)
    ensures r.None? ==> forall a :: !IsMatch(e, p, a)
    ensures forall a :: IsFirstMatch(e, p, a) ==> r == Walk(e, a)
    ensures r.Some? ==> exists a :: IsFirstMatch(e, p, a)
    ensures r.Some? ==> r.value.tag == p[|p| - 1]
  {
    FirstMatchUnique(e, p);
    match FirstMatch(e, p)
    case None => None
    case Some(a) => MatchIsNode(e, p, a); Walk(e, a)
  }

  /** Two trees with the same tags in the same places. */
  ghost predicate SameShape(x: Element, y: Element)
    decreases x
  {
    && x.tag == y.tag
    && |x.children| == |y.children|
    && forall i :: 0 <= i < |x.children| ==> SameShape(x.children[i], y.children[i])
  }

  lemma {:induction false} SameShapeReflexive(x: Element)
    ensures SameShape(x, x)
    decreases x
  {
    forall i | 0 <= i < |x.children|
      ensures SameShape(x.children[i], x.children[i])
    {
      SameShapeReflexive(x.children[i]);
    }
  }

  lemma {:induction false} SameShapeTransitive(x: Element, y: Element, z: Element)
    requires SameShape(x, y) && SameShape(y, z)
    ensures SameShape(x, z)
    decreases x
  {
    forall i | 0 <= i < |x.children|
      ensures SameShape(x.children[i], z.children[i])
    {
      SameShapeTransitive(x.children[i], y.children[i], z.children[i]);
    }
  }

  lemma {:induction false} FirstMatchFromSameShape(x: Element, y: Element, i: nat, p: Path)
    requires SameShape(x, y)
    requires 0 < |p| && i <= |x.children|
    ensures FirstMatchFrom(x, i, p) == FirstMatchFrom(y, i, p)
    decreases x, |x.children| - i
  {
    if i < |x.children| {
      if x.children[i].tag == p[0] && |p| > 1 {
        FirstMatchFromSameShape(x.children[i], y.children[i], 0, p[1..]);
      }
      FirstMatchFromSameShape(x, y, i + 1, p);
    }
  }

  /** `find` depends only on the tags and the structure of the tree. */
  lemma FirstMatchSameShape(x: Element, y: Element, p: Path)
    requires SameShape(x, y)
    ensures FirstMatch(x, p) == FirstMatch(y, p)
  {
    if p != [] {
      FirstMatchFromSameShape(x, y, 0, p);
    }
  }

  /** The tree with the node at `a` given new text and attributes, keeping
      its tag and children: the in-place assignment `node.text = ...` or
      `node.attrib[k] = ...` seen from the root. */
  function UpdateNodeAt(e: Element, a: Address, text: Option<string>, attrib: map<string, string>): (r: Element)
    requires Walk(e, a).Some?
    ensures Walk(r, a) == Some(Walk(e, a).value.(text := text, attrib := attrib))
    decreases a
  {
    if a == [] then e.(text := text, attrib := attrib)
    else e.(children := e.children[a[0] := UpdateNodeAt(e.children[a[0]], a[1..], text, attrib)])
  }

  lemma {:induction false} UpdateNodeAtSameShape(e: Element, a: Address, text: Option<string>, attrib: map<string, string>)
    requires Walk(e, a).Some?
    ensures SameShape(UpdateNodeAt(e, a, text, attrib), e)
    decreases a
  {
    var r := UpdateNodeAt(e, a, text, attrib);
    if a != [] {
      UpdateNodeAtSameShape(e.children[a[0]], a[1..], text, attrib);
    }
    forall i | 0 <= i < |e.children| && (a == [] || i != a[0])
      ensures SameShape(r.children[i], e.children[i])
    {
      SameShapeReflexive(e.children[i]);
    }
  }

  /** Every node other than the one at `a` keeps its tag, text and
      attributes; every node that is not `a` or one of its ancestors keeps
      its whole subtree. */
  lemma {:induction false} UpdateNodeAtElsewhere(e: Element, a: Address, text: Option<string>, attrib: map<string, string>, b: Address)
    requires Walk(e, a).Some? && b != a
    ensures var r := UpdateNodeAt(e, a, text, attrib);
      && Walk(r, b).Some? == Walk(e, b).Some?
      && (Walk(e, b).Some? ==>
            && Walk(r, b).value.tag == Walk(e, b).value.tag
            && Walk(r, b).value.text == Walk(e, b).value.text
            && Walk(r, b).value.attrib == Walk(e, b).value.attrib)
      && (!IsPrefix(b, a) ==> Walk(r, b) == Walk(e, b))
    decreases a
  {
    if a != [] && b != [] && b[0] == a[0] {
      UpdateNodeAtElsewhere(e.children[a[0]], a[1..], text, attrib, b[1..]);
      assert b == [b[0]] + b[1..] && a == [a[0]] + a[1..];
      assert IsPrefix(b[1..], a[1..]) ==> IsPrefix(b, a);
    }
  }
}
