# gisMetadata in Dafny

A model of the original logic in `gisMetadata.py`, a helper module that moves
the metadata of an ArcGIS item from the FGDC format to the ArcGIS 1.0 format.
The module has three parts:

- **Tag-text accessors.** `getTagText` and `updateTagText` read and rewrite
  the text of the first element that a slash-separated tag path reaches in an
  ElementTree. Both treat every failure of the lookup as "nothing there".
- **FGDC pruning.** A loop deletes the legacy FGDC sections from the root's
  direct children. It calls `root.remove(child)` while iterating over `root`.
- **The upgrade flow.** `upgradeMetadataFormatToArcgis1_0` works in these steps:
  - keep the FGDC title (if asked to);
  - run the platform's upgrade only when the format marker does not read
    `1.0`;
  - prune, import, synchronize and export again;
  - mark `resTitle` with `Sync="FALSE"`;
  - write the kept title back;
  - import the result.

Modules:

- `ElementPath` (element_path.dfy):
  - the element tree, a value with tag, optional text, attributes and children;
  - ElementTree's `find` for plain `a/b/c` paths. A node is named by its
    address, the child index taken at each level. `find` yields the address
    that comes first in lexicographic order. That is the order in which
    ElementPath produces matches: for one path length it is document order,
    and `a/b` searches below every `a`, not only the first.
  - the in-place change of one node, seen from the root.
- `TagText` (tag_text.dfy): `getTagText` and `updateTagText` as functions on
  trees.
- `FgdcPrune` (fgdc_prune.dfy): one pass of the pruning loop, the eight passes,
  and what they remove.
- `MetadataDocument` (metadata_document.dfy): the class `MetadataTree`, the
  ElementTree document that the code changes in place. It has methods for
  `updateTagText`, the attribute assignment and the pruning loop. The two
  nested loops are written as `for`/`while` loops with invariants.
- `MetadataUpgrade` (metadata_upgrade.dfy):
  - the class `Dataset`, which stands for the GIS item. It holds the item's
    metadata, the log of platform tools invoked on it, and the (unknown)
    effects of the upgrade and synchronize tools;
  - the pure specification `UpgradeRun` of a whole run;
  - the method `UpgradeMetadataFormatToArcgis1_0`, proved to produce exactly
    that run.

### The pruning loop as written

Python iterates over an element by index. Removing the child in slot `i`
moves its successor into slot `i`, and the next step of the loop looks at
slot `i + 1`. So the successor of every removed child is never examined.
`RemovalPass` and `MetadataTree.RemoveChildrenTagged` follow that behaviour
step by step.

The comments in the source, and its documented purpose, say that every listed
section is deleted. The code does not do this, and the model follows the code:

- Two neighbouring `idinfo` sections leave the second in place
  (`AdjacentDuplicateSurvives`).
- An earlier pass can make two sections neighbours. With `citeinfo, idinfo,
  citeinfo`, the `idinfo` pass makes the two `citeinfo` sections neighbours,
  and the second one survives (`EarlierPassCreatesNeighbours`).
- What the code does guarantee is proved:
  - every unlisted section survives, in order;
  - at most half of each listed section survives;
  - a listed section survives only right after a removed neighbour with the
    same tag;
  - when each FGDC section occurs at most once, all of them are deleted.

## Model

| member | source | states |
|---|---|---|
| ElementPath.MatchIsNode | gisMetadata.py:106 | every match of a path is a node of the tree, with the path's last tag |
| ElementPath.FirstMatchUnique | gisMetadata.py:106 | at most one match comes before all others, so `find` has one answer |
| ElementPath.FirstMatchFrom | gisMetadata.py:106 | the search `find` performs, child by child from index `i`, descending into each child whose tag is the path's first; its properties are stated by FirstMatchFromSpec, FirstMatch and FirstMatchFromSameShape |
| ElementPath.FirstMatchFromSpec | gisMetadata.py:106 | searching the children from index `i` on finds the least match whose first index is at least `i`, or shows that every match starts before `i` |
| ElementPath.FirstMatch | gisMetadata.py:106 | the address `find` resolves to is a match that precedes every other match; None only when nothing matches |
| ElementPath.Find | gisMetadata.py:106 | `find` returns the element at the first match in document order, and None exactly when no element matches; the element carries the path's last tag |
| ElementPath.FirstMatchSameShape | gisMetadata.py:106 | `find` depends only on the tags and the structure of the tree, not on texts or attributes |
| ElementPath.UpdateNodeAt | gisMetadata.py:123 | after the in-place assignment, the node at the address has the new text and attributes and keeps its tag and children |
| ElementPath.UpdateNodeAtSameShape | gisMetadata.py:123 | an in-place text or attribute change leaves every tag and the whole structure as they were |
| ElementPath.UpdateNodeAtElsewhere | gisMetadata.py:123 | every other node keeps its tag, text and attributes, and every node that is not an ancestor of the changed one keeps its whole subtree |
| TagText.GetTagText | gisMetadata.py:97-110 | None when the path matches nothing; otherwise the text of the first match in document order, which is None when that element has no text |
| TagText.UpdatedTagText | gisMetadata.py:112-127 | the tree is returned unchanged when the path matches nothing; otherwise the first match gets the new text, keeps its tag, attributes and children, and the tree keeps its shape |
| TagText.WithAttributeAt | gisMetadata.py:86 | `titleTag.attrib['Sync'] = 'FALSE'` gives that node the attribute and keeps the tree's shape; WithAttributeAtElsewhere states that nothing else changes |
| TagText.WithAttributeAtElsewhere | gisMetadata.py:86 | the assignment changes nothing but that node's attribute: every other node keeps its tag, text and attributes, and every node that is not an ancestor of it keeps its whole subtree |
| TagText.UpdateThenGet | gisMetadata.py:106-107 | writing a text through a path that reaches an element and reading it back through the same path yields the text written |
| TagText.UpdateTagTextChangesOnlyFirstMatch | gisMetadata.py:121-127 | only the first match's text changes: every other node keeps tag, text and attributes, and every node off the path to the first match is identical |
| FgdcPrune.RemovalPass | gisMetadata.py:73-75 | one pass of the inner loop as written: a child tagged `t` is removed and the child after it is kept unexamined; its properties are stated by RemovalPassExact, SurvivorFollowsRemoved, NoAdjacentRemovesAll and the RemovalPass lemmas below |
| FgdcPrune.PruneTags | gisMetadata.py:72-75 | the passes of the outer loop over a list of tags, in order; its properties are stated by PruneKeepsUnlisted, PruneSubsequence, PruneHalves, FgdcPruneKeepsUnlisted and FgdcPruneRemovesSingleSections |
| FgdcPrune.RemovedStep | gisMetadata.py:73-75 | a child tagged `t` is removed exactly when the walk looks at it: it is first, or its predecessor was not removed |
| FgdcPrune.RemovalPassExact | gisMetadata.py:73-75 | one pass keeps exactly the children that are not at an odd position in a run of neighbours tagged `t` |
| FgdcPrune.FirstOccurrenceRemoved | gisMetadata.py:73-75 | the first child tagged `t` is removed by the pass |
| FgdcPrune.SurvivorFollowsRemoved | gisMetadata.py:73-75 | a child tagged `t` survives its pass only directly after a neighbour tagged `t` that the pass removed |
| FgdcPrune.NoAdjacentRemovesAll | gisMetadata.py:73-75 | when no two neighbours carry tag `t`, the pass removes every child tagged `t` and nothing else |
| FgdcPrune.RemovalPassKeepsOthers | gisMetadata.py:73-75 | a pass keeps every child with another tag, in order |
| FgdcPrune.RemovalPassSubsequence | gisMetadata.py:73-75 | a pass keeps only original children, in their original order |
| FgdcPrune.RemovalPassHalves | gisMetadata.py:73-75 | a pass removes at least half (rounded up) of the children tagged `t` |
| FgdcPrune.RemovalPassCountOther | gisMetadata.py:73-75 | a pass for one tag keeps the number of children of every other tag |
| FgdcPrune.PruneKeepsUnlisted | gisMetadata.py:72-75 | the passes for listed tags keep every unlisted child, in order |
| FgdcPrune.PruneSubsequence | gisMetadata.py:72-75 | after all passes the children are original children in their original order |
| FgdcPrune.PruneCountUnlisted | gisMetadata.py:72-75 | a tag that is not listed keeps all its children |
| FgdcPrune.PruneHalves | gisMetadata.py:72-75 | of each listed tag at most half (rounded down) of the children survive |
| FgdcPrune.PruneTagsAppend | gisMetadata.py:72 | running the passes for one list of tags and then another is running them for the two lists joined |
| FgdcPrune.FgdcPruneKeepsUnlisted | gisMetadata.py:70-75 | the deletion keeps every `eainfo` and `spdoinfo` section and every other unlisted child, in order, and keeps only original children |
| FgdcPrune.FgdcPruneRemovesSingleSections | gisMetadata.py:71-75 | when each FGDC section occurs at most once, the deletion removes all of them and nothing else |
| FgdcPrune.AdjacentDuplicateSurvives | gisMetadata.py:71-75 | two neighbouring `idinfo` sections: the second survives the deletion |
| FgdcPrune.EarlierPassCreatesNeighbours | gisMetadata.py:71-75 | `citeinfo, idinfo, citeinfo`: the second `citeinfo` survives, because the `idinfo` pass made the two neighbours |
| MetadataDocument.MetadataTree.UpdateTagText | gisMetadata.py:112-127 | the document's new root is the tree `updateTagText` specifies |
| MetadataDocument.MetadataTree.SetAttribute | gisMetadata.py:86 | the document's new root is the old one with the attribute set on the node at the address |
| MetadataDocument.MetadataTree.PruneFgdcSections | gisMetadata.py:69-75 | the outer loop over the eight tags changes only the root's child list, to the result of the eight passes in order |
| MetadataDocument.MetadataTree.RemoveChildrenTagged | gisMetadata.py:73-75 | the index-based walk with in-place removal leaves the root's child list as one pass specifies, and changes nothing else |
| MetadataDocument.MetadataTree.RemoveAt | gisMetadata.py:75 | `root.remove(child)` deletes the child at its index and keeps the others in order |
| MetadataUpgrade.Dataset.Export | gisMetadata.py:51 | exporting hands out the held metadata and records the export |
| MetadataUpgrade.Dataset.Import | gisMetadata.py:78 | importing makes the tree the held metadata and records the import |
| MetadataUpgrade.Dataset.UpgradeMetadata | gisMetadata.py:63 | the upgrade tool applies its effect to the held metadata and is recorded with its upgrade type |
| MetadataUpgrade.Dataset.SynchronizeMetadata | gisMetadata.py:81 | the synchronize tool applies its effect to the held metadata and is recorded with its mode |
| MetadataUpgrade.UpgradeRun | gisMetadata.py:43-94 | the whole run: the tools invoked, the metadata left and how the run ends; its properties are stated by UpgradeOnlyWhenNotArcgis10, SynchronizeFollowsPrunedImport, CompletedRunFlagsTitle, CompletedRunKeepsTitle, CompletedRunKeepsSynchronized and MissingTitleStopsAfterSync, and UpgradeMetadataFormatToArcgis1_0 is proved to perform it |
| MetadataUpgrade.SetupCallsLayout | gisMetadata.py:51-84 | before the final import, the tools run exactly as export, (upgrade FGDC_TO_ARCGIS, export when needed), import of the pruned tree, synchronize in mode ALWAYS, export; no other call synchronizes |
| MetadataUpgrade.UpgradeOnlyWhenNotArcgis10 | gisMetadata.py:61-66 | the upgrade tool is invoked, and a third export happens, exactly when the format marker does not read "1.0"; it is only asked for FGDC_TO_ARCGIS |
| MetadataUpgrade.SynchronizeFollowsPrunedImport | gisMetadata.py:69-84 | synchronisation happens once, right after the import of the pruned upgraded tree and right before the next export; that tree keeps every `eainfo`, `spdoinfo` and other unlisted section |
| MetadataUpgrade.CompletedRunFlagsTitle | gisMetadata.py:84-94 | a completed run ends by importing a tree whose `resTitle` carries `Sync="FALSE"` and which has the synchronised tree's shape; CompletedRunKeepsSynchronized states what else it keeps |
| MetadataUpgrade.CompletedRunKeepsSynchronized | gisMetadata.py:84-94 | in the tree a completed run imports last, `resTitle` keeps its tag, children and every attribute but `Sync`; every other node keeps its synchronised tag, text and attributes, and every node that is not an ancestor of `resTitle` keeps its whole synchronised subtree |
| MetadataUpgrade.CompletedRunKeepsTitle | gisMetadata.py:54-91 | the final `resTitle` text is the FGDC title when that was asked for and found, whatever synchronizing wrote, and the synchronised text otherwise |
| MetadataUpgrade.RetitledFixesTitle | gisMetadata.py:85-91 | flagging the first `resTitle` and writing a title into it gives that title, or keeps the old text when no title is written |
| MetadataUpgrade.RetitledElsewhere | gisMetadata.py:85-91 | flagging and retitling change only the first `resTitle`'s `Sync` attribute and text; every other node keeps its tag, text and attributes, and nodes off the path to `resTitle` keep their whole subtree |
| MetadataUpgrade.MissingTitleStopsAfterSync | gisMetadata.py:84-86 | a run fails exactly when `resTitle` is missing after synchronising, and then the dataset keeps the synchronised metadata and the last call is the export |
| MetadataUpgrade.FetchFgdcTitle | gisMetadata.py:54-57 | keeping the title is given up exactly when it was not asked for or the record has no FGDC title; the title fetched is the record's |
| MetadataUpgrade.UpgradeIfNeeded | gisMetadata.py:60-66 | the upgrade tool runs and the metadata is exported again exactly when the marker does not read "1.0"; the tree returned is the upgraded metadata, a fresh export after an upgrade and the tree handed in otherwise |
| MetadataUpgrade.UpgradePruneAndSynchronize | gisMetadata.py:60-84 | the calls from the format check to the export after synchronising, and the synchronised metadata that results; the tree handed in is pruned in place when no upgrade was needed and left alone otherwise |
| MetadataUpgrade.FixTitleAndImport | gisMetadata.py:85-94 | with `resTitle` present the document is flagged and retitled in place, then imported, and the run completes; without it nothing more happens |
| MetadataUpgrade.UpgradeMetadataFormatToArcgis1_0 | gisMetadata.py:43-94 | the tools invoked, the metadata left behind and the way the run ends are those of the run specification |

## Left out

- The ArcGIS tools (`MetadataImporter_conversion`, `UpgradeMetadata_conversion`,
  `SynchronizeMetadata_conversion`) are foreign platform code. A `Dataset`
  records that they were called; what the upgrade and synchronize tools do
  to the metadata is an arbitrary function fixed for the dataset.
- `backupMetadataToXml` and `restoreMetadataFromBackup` (gisMetadata.py:16-41)
  are one converter call and a file copy: pure I/O, not modelled.
- `export_to_ElementTree`, `import_from_ElementTree` and `_createDummyXMLFile`
  (gisMetadata.py:129-167) write, parse and delete temporary XML files. Trees
  are modelled as values, not as text. An export hands out exactly the metadata
  the dataset holds. An import stores the tree exactly as given. The
  temporary files, including the one the import path never deletes, are not
  modelled.
- Only plain `tag/tag/...` paths are modelled, which is all the code uses. The
  rest of ElementPath (`.`, `//`, `*`, predicates, attributes) is not. The
  empty path matches nothing.
- The `print` diagnostic in `updateTagText` (gisMetadata.py:125) is console
  output and is left out. So is the return value of `updateTagText`: it is
  the same tree object that was changed in place.
- The uncaught exception when `resTitle` is missing (gisMetadata.py:85-86) is
  the outcome `ResTitleMissing`. The model does not say what the exception
  is, only that the run stops there.
- Every platform tool call, export and import is assumed to succeed. In the
  source a failing converter, upgrade or synchronize call raises and aborts
  the run midway, leaving the dataset partly upgraded; the model has no
  outcome for that.
- Element tails (the text after an element's closing tag) are not modelled.
  `root.remove(child)` drops a child together with its tail, and writing the
  tree serialises tails; no property here is about them.
- The default `maintainFgdcTitle=True` (gisMetadata.py:43) is not modelled:
  the method takes the flag explicitly.
- `maintainFgdcTitle == True` is modelled for a boolean flag only. A non-boolean
  argument that Python compares equal to `True` is outside the model.
