/**
  The ElementTree documents that gisMetadata.py changes in place (`mdo` and
  `syncedMdo` in `upgradeMetadataFormatToArcgis1_0`). Each operation
  reassigns the document's root to the tree the in-place change produces.
 */
module MetadataDocument {
  import opened Wrappers
  import opened ElementPath
  import opened TagText
  import opened FgdcPrune

  class MetadataTree {
    var root: Element

    constructor (root: Element)
      ensures this.root == root
    {
      this.root := root;
    }

    /** `updateTagText(self, path, newText)`. */
    method UpdateTagText(path: Path, newText: Option<string>)
      modifies this
      ensures root == UpdatedTagText(old(root), path, newText)
    {
      root := UpdatedTagText(root, path, newText);
    }

    /** `node.attrib[key] = value` on the node at `a`. */
    method SetAttribute(a: Address, key: string, value: string)
      requires Walk(root, a).Some?
      modifies this
      ensures root == WithAttributeAt(old(root), a, key, value)
    {
      root := WithAttributeAt(root, a, key, value);
    }

    /** The deletion loop over the root's children, one pass per FGDC tag.
        Only the root's child list changes. */
    method PruneFgdcSections()
      modifies this
      ensures root == old(root).(children := PruneTags(old(root).children, FGDC_TAGS))
    {
      for k := 0 to |FGDC_TAGS|
        invariant root == old(root).(children := PruneTags(old(root).children, FGDC_TAGS[..k]))
      {
        RemoveChildrenTagged(FGDC_TAGS[k]);
        assert FGDC_TAGS[..k + 1][..k] == FGDC_TAGS[..k];
      }
      assert FGDC_TAGS[..|FGDC_TAGS|] == FGDC_TAGS;
    }

    /** One pass `for child in root: if child.tag == t: root.remove(child)`.
        The walk's index moves on after every child it looks at, whether or
        not that child was removed. */
    method RemoveChildrenTagged(t: Tag)
      modifies this
      ensures root == old(root).(children := RemovalPass(old(root).children, t))
    {
      ghost var done: seq<Element> := [];
      ghost var rest := root.children;
      var i := 0;
      while i < |root.children|
        invariant root.tag == old(root).tag && root.text == old(root).text && root.attrib == old(root).attrib
        invariant root.children == done + rest
        invariant i == |done| || (rest == [] && i == |done| + 1)
        invariant RemovalPass(old(root).children, t) == done + RemovalPass(rest, t)
        decreases |rest|
      {
        if root.children[i].tag == t {
          RemoveAt(i);
          ghost var r := rest;
          if |r| > 1 {
            done, rest := done + [r[1]], r[2..];
            assert root.children == done + rest by {
              assert r[1..] == [r[1]] + r[2..];
            }
          } else {
            rest := [];
          }
        } else {
          done, rest := done + [rest[0]], rest[1..];
        }
        i := i + 1;
      }
      assert root == old(root).(children := RemovalPass(old(root).children, t));
    }

    /** `root.remove(child)` for the child at index `i`. */
    method RemoveAt(i: nat)
      requires i < |root.children|
      modifies this
      ensures root == old(root).(children := old(root).children[..i] + old(root).children[i + 1..])
    {
      root := root.(children := root.children[..i] + root.children[i + 1..]);
    }
  }
}
