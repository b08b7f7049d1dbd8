/**
  The two tag-text helpers of gisMetadata.py, `getTagText` and
  `updateTagText`, on the element tree of module ElementPath. Both swallow
  every failure of the lookup: a path that resolves to nothing yields None
  (the source's `None`), or leaves the tree as it was.
 */
module TagText {
  import opened Wrappers
  import opened ElementPath

  /** `getTagText`: the text of the first element that `path` reaches, and
      None when nothing matches or the element has no text. */
  function GetTagText(tree: Element, path: Path): (r: Option<string>)
    ensures (forall a :: !IsMatch(tree, path, a)) ==> r.None?
    ensures forall a :: IsFirstMatch(tree, path, a) ==>
              Walk(tree, a).Some? && r == Walk(tree, a).value.text
  {
    match Find(tree, path)
    case None => None
    case Some(node) => node.text
  }

  /** The tree after `updateTagText`: the first element that `path` reaches
      gets `newText` as its text; when nothing matches the tree is returned
      as it was. */
  function UpdatedTagText(tree: Element, path: Path, newText: Option<string>): (r: Element)
    ensures (forall a :: !IsMatch(tree, path, a)) ==> r == tree
    ensures SameShape(r, tree)
    ensures forall a :: IsFirstMatch(tree, path, a) ==>
              Walk(tree, a).Some? && Walk(r, a) == Some(Walk(tree, a).value.(text := newText))
  {
    FirstMatchUnique(tree, path);
    match FirstMatch(tree, path)
    case None => SameShapeReflexive(tree); tree
    case Some(a) =>
      UpdateNodeAtSameShape(tree, a, newText, Walk(tree, a).value.attrib);
      UpdateNodeAt(tree, a, newText, Walk(tree, a).value.attrib)
  }

  /** The tree after `node.attrib[key] = value` on the node at `a`. */
  function WithAttributeAt(tree: Element, a: Address, key: string, value: string): (r: Element)
    requires Walk(tree, a).Some?
    ensures SameShape(r, tree)
    ensures var node := Walk(tree, a).value;
      Walk(r, a) == Some(node.(attrib := node.attrib[key := value]))
  {
    var node := Walk(tree, a).value;
    UpdateNodeAtSameShape(tree, a, node.text, node.attrib[key := value]);
    UpdateNodeAt(tree, a, node.text, node.attrib[key := value])
  }

  /** Setting an attribute on the node at `a` changes nothing else: that
      node keeps its tag, text, other attributes and children, every other
      node keeps its tag, text and attributes, and every node that is not an
      ancestor of `a` keeps its whole subtree. */
  lemma WithAttributeAtElsewhere(tree: Element, a: Address, key: string, value: string, b: Address)
    requires Walk(tree, a).Some? && b != a
    ensures var r := WithAttributeAt(tree, a, key, value);
      && Walk(r, b).Some? == Walk(tree, b).Some?
      && (Walk(tree, b).Some? ==>
            && Walk(r, b).value.tag == Walk(tree, b).value.tag
            && Walk(r, b).value.text == Walk(tree, b).value.text
            && Walk(r, b).value.attrib == Walk(tree, b).value.attrib)
      && (!IsPrefix(b, a) ==> Walk(r, b) == Walk(tree, b))
  {
    var node := Walk(tree, a).value;
    UpdateNodeAtElsewhere(tree, a, node.text, node.attrib[key := value], b);
  }

  /** Writing a text and reading it back through the same path gives the
      text written, whenever the path reaches some element. */
  lemma UpdateThenGet(tree: Element, path: Path, newText: Option<string>)
    requires exists a :: IsMatch(tree, path, a)
    ensures GetTagText(UpdatedTagText(tree, path, newText), path) == newText
  {
    var r := UpdatedTagText(tree, path, newText);
    var a := FirstMatch(tree, path).value;
    FirstMatchSameShape(r, tree, path);
    assert IsFirstMatch(r, path, a);
  }

  /** `updateTagText` changes the text of the first match and nothing else:
      that element keeps its tag, attributes and children, every other
      element keeps its tag, text and attributes, and every element that is
      neither the first match nor one of its ancestors is identical. */
  lemma UpdateTagTextChangesOnlyFirstMatch(tree: Element, path: Path, newText: Option<string>, a: Address, b: Address)
    requires IsFirstMatch(tree, path, a) && b != a
    ensures var r := UpdatedTagText(tree, path, newText);
      && Walk(r, a).Some?
      && Walk(r, a).value.tag == Walk(tree, a).value.tag
      && Walk(r, a).value.attrib == Walk(tree, a).value.attrib
      && Walk(r, a).value.children == Walk(tree, a).value.children
      && Walk(r, a).value.text == newText
      && Walk(r, b).Some? == Walk(tree, b).Some?
      && (Walk(tree, b).Some? ==>
            && Walk(r, b).value.tag == Walk(tree, b).value.tag
            && Walk(r, b).value.text == Walk(tree, b).value.text
            && Walk(r, b).value.attrib == Walk(tree, b).value.attrib)
      && (!IsPrefix(b, a) ==> Walk(r, b) == Walk(tree, b))
  {
    FirstMatchUnique(tree, path);
    MatchIsNode(tree, path, a);
    var node := Walk(tree, a).value;
    UpdateNodeAtElsewhere(tree, a, newText, node.attrib, b);
  }
}
