/**
  `upgradeMetadataFormatToArcgis1_0` of gisMetadata.py: move a dataset's
  metadata from the FGDC format to the ArcGIS 1.0 format while keeping its
  FGDC title.

  The GIS platform is a Dataset object: the metadata it holds for the item
  and the log of the conversion tools invoked on it. What the upgrade tool
  and the synchronize tool do to the metadata is not known here; a Dataset
  carries them as two functions. Exporting hands out the held metadata as a
  tree; importing a tree makes it the held metadata.
 */
module MetadataUpgrade {
  import opened Wrappers
  import opened ElementPath
  import opened TagText
  import opened FgdcPrune
  import opened MetadataDocument

  const FGDC_TITLE_PATH: Path := ["idinfo", "citation", "citeinfo", "title"]
  const FORMAT_MARKER_PATH: Path := ["Esri", "ArcGISFormat"]
  const RES_TITLE_PATH: Path := ["dataIdInfo", "idCitation", "resTitle"]
  const ARCGIS_FORMAT_1_0: string := "1.0"
  const FGDC_TO_ARCGIS: string := "FGDC_TO_ARCGIS"
  const ALWAYS: string := "ALWAYS"

  /** One invocation of a platform tool on the dataset. */
  datatype Call =
    | Exported                        // the metadata converted to an XML tree
    | Imported(tree: Element)         // a tree converted back into the metadata
    | Upgraded(upgradeType: string)   // UpgradeMetadata_conversion
    | Synchronized(syncType: string)  // SynchronizeMetadata_conversion

  class Dataset {
    var metadata: Element
    var calls: seq<Call>
    /** What UpgradeMetadata_conversion does to the metadata. */
    const upgradeEffect: Element -> Element
    /** What SynchronizeMetadata_conversion does to the metadata. */
    const syncEffect: Element -> Element

    constructor (metadata: Element, upgradeEffect: Element -> Element, syncEffect: Element -> Element)
      ensures this.metadata == metadata && calls == []
      ensures this.upgradeEffect == upgradeEffect && this.syncEffect == syncEffect
    {
      this.metadata := metadata;
      this.calls := [];
      this.upgradeEffect := upgradeEffect;
      this.syncEffect := syncEffect;
    }

    /** `export_to_ElementTree(dataset)`. */
    method Export() returns (tree: Element)
      modifies this
      ensures tree == metadata == old(metadata)
      ensures calls == old(calls) + [Exported]
    {
      tree := metadata;
      calls := calls + [Exported];
    }

    /** `import_from_ElementTree(tree, dataset)`. */
    method Import(tree: Element)
      modifies this
      ensures metadata == tree
      ensures calls == old(calls) + [Imported(tree)]
    {
      metadata := tree;
      calls := calls + [Imported(tree)];
    }

    /** `arcpy.UpgradeMetadata_conversion(dataset, upgradeType)`. */
    method UpgradeMetadata(upgradeType: string)
      modifies this
      ensures metadata == upgradeEffect(old(metadata))
      ensures calls == old(calls) + [Upgraded(upgradeType)]
    {
      metadata := upgradeEffect(metadata);
      calls := calls + [Upgraded(upgradeType)];
    }

    /** `arcpy.SynchronizeMetadata_conversion(dataset, syncType)`. */
    method SynchronizeMetadata(syncType: string)
      modifies this
      ensures metadata == syncEffect(old(metadata))
      ensures calls == old(calls) + [Synchronized(syncType)]
    {
      metadata := syncEffect(metadata);
      calls := calls + [Synchronized(syncType)];
    }
  }

  /** How a run ends: normally, or on the uncaught failure to find `resTitle`. */
  datatype Outcome = Completed | ResTitleMissing

  /** The tools a run invokes, the metadata it leaves, and how it ends. */
  datatype Run = Run(calls: seq<Call>, stored: Element, outcome: Outcome)

  /** The FGDC title the run keeps: None when keeping it was not asked for
      or the record has none. */
  function KeptTitle(md: Element, maintainFgdcTitle: bool): Option<string>
  {
    if maintainFgdcTitle then GetTagText(md, FGDC_TITLE_PATH) else None
  }

  predicate NeedsUpgrade(md: Element)
  {
    GetTagText(md, FORMAT_MARKER_PATH) != Some(ARCGIS_FORMAT_1_0)
  }

  /** The tree the FGDC sections are deleted from. */
  function UpgradedTree(md: Element, upgradeEffect: Element -> Element): Element
  {
    if NeedsUpgrade(md) then upgradeEffect(md) else md
  }

  function Pruned(tree: Element): Element
  {
    tree.(children := PruneTags(tree.children, FGDC_TAGS))
  }

  function SyncedTree(md: Element, upgradeEffect: Element -> Element, syncEffect: Element -> Element): Element
  {
    syncEffect(Pruned(UpgradedTree(md, upgradeEffect)))
  }

  /** The synchronised tree with `Sync="FALSE"` on the title at `a`, and the
      kept title, if any, written into it. */
  function Retitled(synced: Element, a: Address, title: Option<string>): Element
    requires Walk(synced, a).Some?
  {
    var flagged := WithAttributeAt(synced, a, "Sync", "FALSE");
    if title.Some? then UpdatedTagText(flagged, RES_TITLE_PATH, title) else flagged
  }

  /** The tools invoked up to the export after synchronising. */
  function SetupCalls(md: Element, upgradeEffect: Element -> Element): seq<Call>
  {
    [Exported] + (if NeedsUpgrade(md) then [Upgraded(FGDC_TO_ARCGIS), Exported] else [])
    + [Imported(Pruned(UpgradedTree(md, upgradeEffect))), Synchronized(ALWAYS), Exported]
  }

  /** The tree imported at the end, or None when `resTitle` is missing. */
  function FinalTree(synced: Element, title: Option<string>): Option<Element>
  {
    match FirstMatch(synced, RES_TITLE_PATH)
    case None => None
    case Some(a) => Some(Retitled(synced, a, title))
  }

  /** The whole run, from the metadata the dataset holds at the start. */
  function UpgradeRun(md: Element, maintainFgdcTitle: bool, upgradeEffect: Element -> Element, syncEffect: Element -> Element): Run
  {
    var synced := SyncedTree(md, upgradeEffect, syncEffect);
    match FinalTree(synced, KeptTitle(md, maintainFgdcTitle))
    case None => Run(SetupCalls(md, upgradeEffect), synced, ResTitleMissing)
    case Some(final) => Run(SetupCalls(md, upgradeEffect) + [Imported(final)], final, Completed)
  }

  /** The number of exports in a call log. */
  function Exports(calls: seq<Call>): nat
  {
    if calls == [] then 0 else (if calls[0] == Exported then 1 else 0) + Exports(calls[1..])
  }

  lemma {:induction false} ExportsAppend(a: seq<Call>, b: seq<Call>)
    ensures Exports(a + b) == Exports(a) + Exports(b)
    decreases |a|
  {
    if a == [] {
      assert a + b == b;
    } else {
      assert (a + b)[1..] == a[1..] + b;
      ExportsAppend(a[1..], b);
    }
  }

  /** Where each tool comes in the calls before the final import. */
  lemma SetupCallsLayout(md: Element, upgradeEffect: Element -> Element)
    ensures var s := SetupCalls(md, upgradeEffect);
      var k := if NeedsUpgrade(md) then 3 else 1;
      && |s| == k + 3
      && s[0] == Exported
      && (NeedsUpgrade(md) ==> s[1] == Upgraded(FGDC_TO_ARCGIS) && s[2] == Exported)
      && s[k] == Imported(Pruned(UpgradedTree(md, upgradeEffect)))
      && s[k + 1] == Synchronized(ALWAYS)
      && s[k + 2] == Exported
      && (forall j :: 0 <= j < |s| && j != k + 1 ==> !s[j].Synchronized?)
      && (Upgraded(FGDC_TO_ARCGIS) in s <==> NeedsUpgrade(md))
      && (forall c :: c in s && c.Upgraded? ==> c.upgradeType == FGDC_TO_ARCGIS)
      && Exports(s) == (if NeedsUpgrade(md) then 3 else 2)
  {
    var s := SetupCalls(md, upgradeEffect);
    var middle := if NeedsUpgrade(md) then [Upgraded(FGDC_TO_ARCGIS), Exported] else [];
    var tail := [Imported(Pruned(UpgradedTree(md, upgradeEffect))), Synchronized(ALWAYS), Exported];
    assert s == [Exported] + middle + tail;
    ExportsAppend([Exported] + middle, tail);
    ExportsAppend([Exported], middle);
  }

  /** A run's calls are the setup calls, then at most one import. */
  lemma RunCallsExtendSetup(md: Element, maintainFgdcTitle: bool, upgradeEffect: Element -> Element, syncEffect: Element -> Element)
    ensures var r := UpgradeRun(md, maintainFgdcTitle, upgradeEffect, syncEffect);
      var s := SetupCalls(md, upgradeEffect);
      && (r.calls == s || (|r.calls| == |s| + 1 && r.calls[..|s|] == s && r.calls[|s|].Imported?))
  {
    var r := UpgradeRun(md, maintainFgdcTitle, upgradeEffect, syncEffect);
    var s := SetupCalls(md, upgradeEffect);
    if r.calls != s {
      assert r.calls[..|s|] == s;
    }
  }

  /** The upgrade tool is invoked, and the metadata exported a second time,
      exactly when the format marker does not read "1.0"; the upgrade tool
      is only ever asked for FGDC_TO_ARCGIS. */
  lemma UpgradeOnlyWhenNotArcgis10(md: Element, maintainFgdcTitle: bool, upgradeEffect: Element -> Element, syncEffect: Element -> Element)
    ensures var r := UpgradeRun(md, maintainFgdcTitle, upgradeEffect, syncEffect);
      && (Upgraded(FGDC_TO_ARCGIS) in r.calls <==> GetTagText(md, FORMAT_MARKER_PATH) != Some("1.0"))
      && (forall c :: c in r.calls && c.Upgraded? ==> c.upgradeType == FGDC_TO_ARCGIS)
      && Exports(r.calls) == (if GetTagText(md, FORMAT_MARKER_PATH) != Some("1.0") then 3 else 2)
  {
    var calls := UpgradeRun(md, maintainFgdcTitle, upgradeEffect, syncEffect).calls;
    var s := SetupCalls(md, upgradeEffect);
    SetupCallsLayout(md, upgradeEffect);
    RunCallsExtendSetup(md, maintainFgdcTitle, upgradeEffect, syncEffect);
    if calls != s {
      var last := [calls[|s|]];
      assert calls == s + last;
      ExportsAppend(s, last);
      assert Exports(last) == 0;
    }
  }

  /** Synchronisation runs once, in mode ALWAYS, right after the pruned tree
      is imported and right before the tree is exported again. The pruned
      tree is the upgraded record with the FGDC sections deleted; it keeps
      all its `eainfo` and `spdoinfo` sections and every other unlisted one,
      in order. */
  lemma SynchronizeFollowsPrunedImport(md: Element, maintainFgdcTitle: bool, upgradeEffect: Element -> Element, syncEffect: Element -> Element)
    ensures var r := UpgradeRun(md, maintainFgdcTitle, upgradeEffect, syncEffect);
      var k := if NeedsUpgrade(md) then 3 else 1;
      var before := UpgradedTree(md, upgradeEffect);
      && k + 3 <= |r.calls|
      && r.calls[k].Imported?
      && r.calls[k].tree == before.(children := PruneTags(before.children, FGDC_TAGS))
      && r.calls[k + 1] == Synchronized(ALWAYS)
      && r.calls[k + 2] == Exported
      && (forall j :: 0 <= j < |r.calls| && j != k + 1 ==> !r.calls[j].Synchronized?)
      && Without(r.calls[k].tree.children, FGDC_TAGS) == Without(before.children, FGDC_TAGS)
      && Count(r.calls[k].tree.children, "eainfo") == Count(before.children, "eainfo")
      && Count(r.calls[k].tree.children, "spdoinfo") == Count(before.children, "spdoinfo")
  {
    var calls := UpgradeRun(md, maintainFgdcTitle, upgradeEffect, syncEffect).calls;
    var s := SetupCalls(md, upgradeEffect);
    SetupCallsLayout(md, upgradeEffect);
    RunCallsExtendSetup(md, maintainFgdcTitle, upgradeEffect, syncEffect);
    assert forall j :: 0 <= j < |s| ==> calls[j] == s[j];
    FgdcPruneKeepsUnlisted(UpgradedTree(md, upgradeEffect).children);
  }

  /** A completed run ends by importing a tree whose `resTitle` carries
      `Sync="FALSE"` and which differs in shape from the synchronised tree
      nowhere. */
  lemma CompletedRunFlagsTitle(md: Element, maintainFgdcTitle: bool, upgradeEffect: Element -> Element, syncEffect: Element -> Element)
    requires UpgradeRun(md, maintainFgdcTitle, upgradeEffect, syncEffect).outcome == Completed
    ensures var r := UpgradeRun(md, maintainFgdcTitle, upgradeEffect, syncEffect);
      && r.calls[|r.calls| - 1] == Imported(r.stored)
      && Find(r.stored, RES_TITLE_PATH).Some?
      && "Sync" in Find(r.stored, RES_TITLE_PATH).value.attrib
      && Find(r.stored, RES_TITLE_PATH).value.attrib["Sync"] == "FALSE"
      && SameShape(r.stored, SyncedTree(md, upgradeEffect, syncEffect))
  {
    CompletedRunIsRetitled(md, maintainFgdcTitle, upgradeEffect, syncEffect);
    var synced := SyncedTree(md, upgradeEffect, syncEffect);
    RetitledFixesTitle(synced, FirstMatch(synced, RES_TITLE_PATH).value, KeptTitle(md, maintainFgdcTitle));
  }

  /** The title text a completed run leaves is the FGDC title when that was
      kept, and the synchronised text otherwise, whatever the synchronize
      tool wrote. */
  lemma CompletedRunKeepsTitle(md: Element, maintainFgdcTitle: bool, upgradeEffect: Element -> Element, syncEffect: Element -> Element)
    requires UpgradeRun(md, maintainFgdcTitle, upgradeEffect, syncEffect).outcome == Completed
    ensures var r := UpgradeRun(md, maintainFgdcTitle, upgradeEffect, syncEffect);
      && (maintainFgdcTitle && GetTagText(md, FGDC_TITLE_PATH).Some? ==>
            GetTagText(r.stored, RES_TITLE_PATH) == GetTagText(md, FGDC_TITLE_PATH))
      && (!(maintainFgdcTitle && GetTagText(md, FGDC_TITLE_PATH).Some?) ==>
            GetTagText(r.stored, RES_TITLE_PATH) == GetTagText(SyncedTree(md, upgradeEffect, syncEffect), RES_TITLE_PATH))
  {
    CompletedRunIsRetitled(md, maintainFgdcTitle, upgradeEffect, syncEffect);
    var synced := SyncedTree(md, upgradeEffect, syncEffect);
    RetitledFixesTitle(synced, FirstMatch(synced, RES_TITLE_PATH).value, KeptTitle(md, maintainFgdcTitle));
  }

  /** A completed run found a `resTitle` and imported the retitled tree last.
      This only resolves the `match` in UpgradeRun for the lemmas above; it
      states no property of its own. */
  lemma CompletedRunIsRetitled(md: Element, maintainFgdcTitle: bool, upgradeEffect: Element -> Element, syncEffect: Element -> Element)
    requires UpgradeRun(md, maintainFgdcTitle, upgradeEffect, syncEffect).outcome == Completed
    ensures var synced := SyncedTree(md, upgradeEffect, syncEffect);
      && FirstMatch(synced, RES_TITLE_PATH).Some?
      && var final := Retitled(synced, FirstMatch(synced, RES_TITLE_PATH).value, KeptTitle(md, maintainFgdcTitle));
      UpgradeRun(md, maintainFgdcTitle, upgradeEffect, syncEffect)
        == Run(SetupCalls(md, upgradeEffect) + [Imported(final)], final, Completed)
  {
    UpgradeRunSteps(md, maintainFgdcTitle, upgradeEffect, syncEffect);
  }

  /** Flagging the first `resTitle` and writing a title into it leaves a tree
      of the same shape whose first `resTitle` carries `Sync="FALSE"` and the
      title written, or its old text when there is no title to write. */
  lemma RetitledFixesTitle(synced: Element, a: Address, title: Option<string>)
    requires FirstMatch(synced, RES_TITLE_PATH) == Some(a)
    ensures var final := Retitled(synced, a, title);
      && Find(final, RES_TITLE_PATH).Some?
      && "Sync" in Find(final, RES_TITLE_PATH).value.attrib
      && Find(final, RES_TITLE_PATH).value.attrib["Sync"] == "FALSE"
      && GetTagText(final, RES_TITLE_PATH) == (if title.Some? then title else GetTagText(synced, RES_TITLE_PATH))
      && SameShape(final, synced)
  {
    var flagged := WithAttributeAt(synced, a, "Sync", "FALSE");
    var final := Retitled(synced, a, title);
    FirstMatchSameShape(flagged, synced, RES_TITLE_PATH);
    assert IsFirstMatch(flagged, RES_TITLE_PATH, a);
    if title.Some? {
      FirstMatchSameShape(final, flagged, RES_TITLE_PATH);
      SameShapeTransitive(final, flagged, synced);
    }
    assert IsFirstMatch(final, RES_TITLE_PATH, a);
  }

  /** Flagging and retitling touch the first `resTitle` and nothing else:
      it keeps its tag, children and other attributes, every other node
      keeps its tag, text and attributes, and every node that is not an
      ancestor of `resTitle` keeps its whole synchronised subtree. */
  lemma RetitledElsewhere(synced: Element, a: Address, title: Option<string>, b: Address)
    requires FirstMatch(synced, RES_TITLE_PATH) == Some(a) && b != a
    ensures var final := Retitled(synced, a, title);
      var node := Walk(synced, a).value;
      && Walk(final, a) == Some(node.(text := if title.Some? then title else node.text,
                                      attrib := node.attrib["Sync" := "FALSE"]))
      && Walk(final, b).Some? == Walk(synced, b).Some?
      && (Walk(synced, b).Some? ==>
            && Walk(final, b).value.tag == Walk(synced, b).value.tag
            && Walk(final, b).value.text == Walk(synced, b).value.text
            && Walk(final, b).value.attrib == Walk(synced, b).value.attrib)
      && (!IsPrefix(b, a) ==> Walk(final, b) == Walk(synced, b))
  {
    var flagged := WithAttributeAt(synced, a, "Sync", "FALSE");
    WithAttributeAtElsewhere(synced, a, "Sync", "FALSE", b);
    if title.Some? {
      FirstMatchSameShape(flagged, synced, RES_TITLE_PATH);
      assert IsFirstMatch(flagged, RES_TITLE_PATH, a);
      UpdateTagTextChangesOnlyFirstMatch(flagged, RES_TITLE_PATH, title, a, b);
    }
  }

  /** A completed run leaves every node except `resTitle`, and every
      attribute of `resTitle` except `Sync`, as synchronising left them. */
  lemma CompletedRunKeepsSynchronized(md: Element, maintainFgdcTitle: bool, upgradeEffect: Element -> Element, syncEffect: Element -> Element, b: Address)
    requires UpgradeRun(md, maintainFgdcTitle, upgradeEffect, syncEffect).outcome == Completed
    ensures var r := UpgradeRun(md, maintainFgdcTitle, upgradeEffect, syncEffect);
      var synced := SyncedTree(md, upgradeEffect, syncEffect);
      && FirstMatch(synced, RES_TITLE_PATH).Some?
      && var a := FirstMatch(synced, RES_TITLE_PATH).value;
      && Walk(r.stored, a).Some?
      && Walk(r.stored, a).value.tag == Walk(synced, a).value.tag
      && Walk(r.stored, a).value.children == Walk(synced, a).value.children
      && Walk(r.stored, a).value.attrib == Walk(synced, a).value.attrib["Sync" := "FALSE"]
      && (b != a ==>
            && Walk(r.stored, b).Some? == Walk(synced, b).Some?
            && (Walk(synced, b).Some? ==>
                  && Walk(r.stored, b).value.tag == Walk(synced, b).value.tag
                  && Walk(r.stored, b).value.text == Walk(synced, b).value.text
                  && Walk(r.stored, b).value.attrib == Walk(synced, b).value.attrib)
            && (!IsPrefix(b, a) ==> Walk(r.stored, b) == Walk(synced, b)))
  {
    CompletedRunIsRetitled(md, maintainFgdcTitle, upgradeEffect, syncEffect);
    var synced := SyncedTree(md, upgradeEffect, syncEffect);
    var a := FirstMatch(synced, RES_TITLE_PATH).value;
    var title := KeptTitle(md, maintainFgdcTitle);
    var c := if b != a then b else a + [0];
    RetitledElsewhere(synced, a, title, c);
  }

  /** A run that finds no `resTitle` after synchronising stops there: the
      dataset keeps the synchronised metadata and no final import happens. */
  lemma MissingTitleStopsAfterSync(md: Element, maintainFgdcTitle: bool, upgradeEffect: Element -> Element, syncEffect: Element -> Element)
    ensures var r := UpgradeRun(md, maintainFgdcTitle, upgradeEffect, syncEffect);
      var synced := SyncedTree(md, upgradeEffect, syncEffect);
      && (r.outcome == ResTitleMissing <==> Find(synced, RES_TITLE_PATH).None?)
      && (r.outcome == ResTitleMissing ==> r.stored == synced && r.calls[|r.calls| - 1] == Exported)
  {
  }

  /** `upgradeMetadataFormatToArcgis1_0(dataset, maintainFgdcTitle)`. */
  method UpgradeMetadataFormatToArcgis1_0(ds: Dataset, maintainFgdcTitle: bool) returns (outcome: Outcome)
    modifies ds
    ensures var r := UpgradeRun(old(ds.metadata), maintainFgdcTitle, ds.upgradeEffect, ds.syncEffect);
      && ds.calls == old(ds.calls) + r.calls
      && ds.metadata == r.stored
      && outcome == r.outcome
  {
    ghost var md := ds.metadata;
    ghost var calls0 := ds.calls;
    var exported := ds.Export();
    var mdo := new MetadataTree(exported);

    var maintain, fgdcTitle := FetchFgdcTitle(mdo, maintainFgdcTitle);

    var syncedMdo := UpgradePruneAndSynchronize(ds, mdo);
    assert ds.calls == calls0 + SetupCalls(md, ds.upgradeEffect);

    outcome := FixTitleAndImport(ds, syncedMdo, maintain, fgdcTitle);
    UpgradeRunSteps(md, maintainFgdcTitle, ds.upgradeEffect, ds.syncEffect);
  }

  /** The run put together from its three stages. This only resolves the
      `match` in UpgradeRun for the method above; it states no property of
      its own. */
  lemma UpgradeRunSteps(md: Element, maintainFgdcTitle: bool, upgradeEffect: Element -> Element, syncEffect: Element -> Element)
    ensures var r := UpgradeRun(md, maintainFgdcTitle, upgradeEffect, syncEffect);
      var synced := SyncedTree(md, upgradeEffect, syncEffect);
      var f := FinalTree(synced, KeptTitle(md, maintainFgdcTitle));
      && (f.None? ==> r == Run(SetupCalls(md, upgradeEffect), synced, ResTitleMissing))
      && (f.Some? ==> r == Run(SetupCalls(md, upgradeEffect) + [Imported(f.value)], f.value, Completed))
  {
  }

  /** The end of `upgradeMetadataFormatToArcgis1_0`: flag the title of the
      synchronised tree, write the kept title into it, and import it. */
  method FixTitleAndImport(ds: Dataset, syncedMdo: MetadataTree, maintain: bool, fgdcTitle: Option<string>) returns (outcome: Outcome)
    requires maintain ==> fgdcTitle.Some?
    modifies ds, syncedMdo
    ensures var f := FinalTree(old(syncedMdo.root), if maintain then fgdcTitle else None);
      && (f.None? ==> outcome == ResTitleMissing && ds.calls == old(ds.calls) && ds.metadata == old(ds.metadata))
      && (f.Some? ==> outcome == Completed && ds.calls == old(ds.calls) + [Imported(f.value)] && ds.metadata == f.value)
      && (f.Some? ==> syncedMdo.root == f.value)
      && (f.None? ==> syncedMdo.root == old(syncedMdo.root))
  {
    var titleAddr := FirstMatch(syncedMdo.root, RES_TITLE_PATH);
    if titleAddr.None? {
      return ResTitleMissing;
    }
    syncedMdo.SetAttribute(titleAddr.value, "Sync", "FALSE");
    if maintain {
      syncedMdo.UpdateTagText(RES_TITLE_PATH, fgdcTitle);
    }
    ds.Import(syncedMdo.root);
    outcome := Completed;
  }

  /** The start of `upgradeMetadataFormatToArcgis1_0`: the FGDC title is
      fetched when it is to be kept, and keeping it is given up when the
      record has none. */
  method FetchFgdcTitle(mdo: MetadataTree, maintainFgdcTitle: bool) returns (maintain: bool, fgdcTitle: Option<string>)
    ensures maintain <==> maintainFgdcTitle && GetTagText(mdo.root, FGDC_TITLE_PATH).Some?
    ensures maintain ==> fgdcTitle == GetTagText(mdo.root, FGDC_TITLE_PATH)
    ensures (if maintain then fgdcTitle else None) == KeptTitle(mdo.root, maintainFgdcTitle)
  {
    maintain := maintainFgdcTitle;
    fgdcTitle := None;
    if maintain {
      fgdcTitle := GetTagText(mdo.root, FGDC_TITLE_PATH);
      if fgdcTitle == None {
        maintain := false;
      }
    }
  }

  /** The format check of `upgradeMetadataFormatToArcgis1_0`: unless the
      marker reads "1.0", the upgrade tool runs and the metadata is exported
      again. The tree returned is the one the FGDC sections are deleted from. */
  method UpgradeIfNeeded(ds: Dataset, mdo: MetadataTree) returns (tree: MetadataTree)
    requires mdo.root == ds.metadata
    modifies ds
    ensures if NeedsUpgrade(old(ds.metadata)) then fresh(tree) else tree == mdo
    ensures ds.calls == old(ds.calls)
      + (if NeedsUpgrade(old(ds.metadata)) then [Upgraded(FGDC_TO_ARCGIS), Exported] else [])
    ensures ds.metadata == tree.root == UpgradedTree(old(ds.metadata), ds.upgradeEffect)
  {
    tree := mdo;
    if GetTagText(tree.root, FORMAT_MARKER_PATH) != Some(ARCGIS_FORMAT_1_0) {
      ds.UpgradeMetadata(FGDC_TO_ARCGIS);
      var exported := ds.Export();
      tree := new MetadataTree(exported);
    }
  }

  /** The middle of `upgradeMetadataFormatToArcgis1_0`, from the format check
      to the export after synchronising, given the exported tree `mdo`. */
  method UpgradePruneAndSynchronize(ds: Dataset, mdo: MetadataTree) returns (syncedMdo: MetadataTree)
    requires mdo.root == ds.metadata
    modifies ds, mdo
    ensures fresh(syncedMdo)
    ensures ds.calls == old(ds.calls)
      + (if NeedsUpgrade(old(ds.metadata)) then [Upgraded(FGDC_TO_ARCGIS), Exported] else [])
      + [Imported(Pruned(UpgradedTree(old(ds.metadata), ds.upgradeEffect))), Synchronized(ALWAYS), Exported]
    ensures ds.metadata == syncedMdo.root == SyncedTree(old(ds.metadata), ds.upgradeEffect, ds.syncEffect)
    ensures mdo.root == if NeedsUpgrade(old(ds.metadata)) then old(mdo.root) else Pruned(old(mdo.root))
  {
    var tree := UpgradeIfNeeded(ds, mdo);
    tree.PruneFgdcSections();
    ds.Import(tree.root);
    ds.SynchronizeMetadata(ALWAYS);
    var exported := ds.Export();
    syncedMdo := new MetadataTree(exported);
  }
}
