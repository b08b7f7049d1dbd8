/**
  The deletion of FGDC sections from the root of an exported record, as
  gisMetadata.py writes it: for each listed tag, `for child in root:` with
  `root.remove(child)` on a match. Python walks an element by index, so a
  removal moves the next sibling into the slot just visited and the walk
  passes over it unchecked. RemovalPass is what one such pass leaves;
  PruneTags is the passes one after another.
 */
module FgdcPrune {
  import opened ElementPath

  /** The FGDC sections that are deleted; `eainfo` and `spdoinfo` are not
      among them since the ArcGIS 1.0 format uses them too. */
  const FGDC_TAGS: seq<Tag> := ["idinfo", "dataqual", "spref", "distinfo", "metainfo", "citeinfo", "timeinfo", "cntinfo"]

  /** One pass for tag `t`: a matching child is removed and the child after
      it is kept without being looked at. */
  function RemovalPass(s: seq<Element>, t: Tag): seq<Element>
    decreases |s|
  {
    if s == [] then []
    else if s[0].tag == t then (if |s| == 1 then [] else [s[1]] + RemovalPass(s[2..], t))
    else [s[0]] + RemovalPass(s[1..], t)
  }

  /** The passes for `tags`, in order. */
  function PruneTags(s: seq<Element>, tags: seq<Tag>): seq<Element>
    decreases |tags|
  {
    if tags == [] then s
    else RemovalPass(PruneTags(s, tags[..|tags| - 1]), tags[|tags| - 1])
  }

  /** The children whose tags are not in `tags`, in order. */
  function Without(s: seq<Element>, tags: seq<Tag>): seq<Element>
    decreases |s|
  {
    if s == [] then []
    else (if s[0].tag in tags then [] else [s[0]]) + Without(s[1..], tags)
  }

  /** The number of children tagged `t`. */
  function Count(s: seq<Element>, t: Tag): nat
    decreases |s|
  {
    if s == [] then 0
    else (if s[0].tag == t then 1 else 0) + Count(s[1..], t)
  }

  /** `a` is `b` with some elements left out, the rest in their order. */
  predicate IsSubsequence(a: seq<Element>, b: seq<Element>)
    decreases |b|
  {
    a == [] || (b != [] && ((a[0] == b[0] && IsSubsequence(a[1..], b[1..])) || IsSubsequence(a, b[1..])))
  }

  /** No two neighbouring children are both tagged `t`. */
  ghost predicate NoAdjacent(s: seq<Element>, t: Tag)
  {
    forall i :: 0 < i < |s| ==> !(s[i - 1].tag == t && s[i].tag == t)
  }

  /** The length of the run of children tagged `t` that ends at index `i`. */
  function RunLength(s: seq<Element>, t: Tag, i: nat): nat
    requires i < |s|
  {
    if s[i].tag != t then 0 else if i == 0 then 1 else 1 + RunLength(s, t, i - 1)
  }

  /** Independent description of a pass: in each run of neighbours tagged
      `t`, the first, third, fifth, ... are removed and the others survive. */
  ghost predicate Removed(s: seq<Element>, t: Tag, i: nat)
    requires i < |s|
  {
    s[i].tag == t && RunLength(s, t, i) % 2 == 1
  }

  /** The children from index `j` on that Removed does not remove. */
  ghost function SurvivorsFrom(s: seq<Element>, t: Tag, j: nat): seq<Element>
    requires j <= |s|
    decreases |s| - j
  {
    if j == |s| then [] else (if Removed(s, t, j) then [] else [s[j]]) + SurvivorsFrom(s, t, j + 1)
  }

  /** A child tagged `t` is removed exactly when the walk looks at it: it is
      the first child, or the child before it was not removed. */
  lemma RemovedStep(s: seq<Element>, t: Tag, j: nat)
    requires j < |s|
    ensures Removed(s, t, j) <==> s[j].tag == t && (j == 0 || !Removed(s, t, j - 1))
  {
    if 0 < j && s[j].tag == t {
      assert RunLength(s, t, j) == 1 + RunLength(s, t, j - 1);
      assert s[j - 1].tag != t ==> RunLength(s, t, j - 1) == 0;
    }
  }

  lemma {:induction false} RemovalPassFrom(s: seq<Element>, t: Tag, j: nat)
    requires j <= |s| && (j == 0 || !Removed(s, t, j - 1))
    ensures RemovalPass(s[j..], t) == SurvivorsFrom(s, t, j)
    decreases |s| - j
  {
    if j < |s| {
      RemovedStep(s, t, j);
      var r := s[j..];
      if s[j].tag != t {
        assert r[1..] == s[j + 1..];
        RemovalPassFrom(s, t, j + 1);
      } else if j + 1 < |s| {
        RemovedStep(s, t, j + 1);
        assert r[1] == s[j + 1] && r[2..] == s[j + 2..];
        RemovalPassFrom(s, t, j + 2);
      }
    }
  }

  /** One pass removes exactly the children that Removed describes. */
  lemma RemovalPassExact(s: seq<Element>, t: Tag)
    ensures RemovalPass(s, t) == SurvivorsFrom(s, t, 0)
  {
    RemovalPassFrom(s, t, 0);
    assert s[0..] == s;
  }

  /** The first child tagged `t`, if there is one, is removed. */
  lemma FirstOccurrenceRemoved(s: seq<Element>, t: Tag, f: nat)
    requires f < |s| && s[f].tag == t
    requires forall k :: 0 <= k < f ==> s[k].tag != t
    ensures Removed(s, t, f)
  {
    if f > 0 {
      assert s[f - 1].tag != t;
    }
  }

  /** A child tagged `t` survives its pass only right after a neighbour
      tagged `t` that the pass removed. */
  lemma SurvivorFollowsRemoved(s: seq<Element>, t: Tag, i: nat)
    requires i < |s| && s[i].tag == t && !Removed(s, t, i)
    ensures 0 < i && s[i - 1].tag == t && Removed(s, t, i - 1)
  {
    RemovedStep(s, t, i);
  }

  lemma {:induction false} NoAdjacentRemovesAll(s: seq<Element>, t: Tag)
    requires NoAdjacent(s, t)
    ensures RemovalPass(s, t) == Without(s, [t])
    decreases |s|
  {
    if s != [] {
      if s[0].tag == t && |s| > 1 {
        assert !(s[0].tag == t && s[1].tag == t);
        assert s[1..][1..] == s[2..];
        NoAdjacentRemovesAll(s[2..], t);
      } else if s[0].tag != t {
        NoAdjacentRemovesAll(s[1..], t);
      }
    }
  }

  lemma {:induction false} RemovalPassKeepsOthers(s: seq<Element>, t: Tag, tags: seq<Tag>)
    requires t in tags
    ensures Without(RemovalPass(s, t), tags) == Without(s, tags)
    decreases |s|
  {
    if s != [] {
      if s[0].tag == t && |s| > 1 {
        RemovalPassKeepsOthers(s[2..], t, tags);
        assert ([s[1]] + RemovalPass(s[2..], t))[1..] == RemovalPass(s[2..], t);
        assert s[1..][1..] == s[2..];
      } else if s[0].tag != t {
        RemovalPassKeepsOthers(s[1..], t, tags);
        assert ([s[0]] + RemovalPass(s[1..], t))[1..] == RemovalPass(s[1..], t);
      }
    }
  }

  lemma {:induction false} RemovalPassSubsequence(s: seq<Element>, t: Tag)
    ensures IsSubsequence(RemovalPass(s, t), s)
    decreases |s|
  {
    if s != [] {
      if s[0].tag == t && |s| > 1 {
        RemovalPassSubsequence(s[2..], t);
        assert ([s[1]] + RemovalPass(s[2..], t))[1..] == RemovalPass(s[2..], t);
        assert s[1..][1..] == s[2..];
        assert IsSubsequence(RemovalPass(s, t), s[1..]);
      } else if s[0].tag != t {
        RemovalPassSubsequence(s[1..], t);
        assert ([s[0]] + RemovalPass(s[1..], t))[1..] == RemovalPass(s[1..], t);
      }
    }
  }

  lemma {:induction false} SubsequenceTransitive(a: seq<Element>, b: seq<Element>, c: seq<Element>)
    requires IsSubsequence(a, b) && IsSubsequence(b, c)
    ensures IsSubsequence(a, c)
    decreases |c|
  {
    if a != [] {
      if IsSubsequence(b, c[1..]) {
        SubsequenceTransitive(a, b, c[1..]);
      } else if a[0] == b[0] && IsSubsequence(a[1..], b[1..]) {
        SubsequenceTransitive(a[1..], b[1..], c[1..]);
      } else {
        SubsequenceTransitive(a, b[1..], c[1..]);
      }
    }
  }

  /** A pass for `t` removes at least half of the children tagged `t`
      (rounded up). */
  lemma {:induction false} RemovalPassHalves(s: seq<Element>, t: Tag)
    ensures 2 * Count(RemovalPass(s, t), t) <= Count(s, t)
    decreases |s|
  {
    if s != [] {
      if s[0].tag == t && |s| > 1 {
        RemovalPassHalves(s[2..], t);
        assert ([s[1]] + RemovalPass(s[2..], t))[1..] == RemovalPass(s[2..], t);
        assert s[1..][1..] == s[2..];
      } else if s[0].tag != t {
        RemovalPassHalves(s[1..], t);
        assert ([s[0]] + RemovalPass(s[1..], t))[1..] == RemovalPass(s[1..], t);
      }
    }
  }

  /** A pass for another tag keeps every child tagged `t`. */
  lemma {:induction false} RemovalPassCountOther(s: seq<Element>, u: Tag, t: Tag)
    requires u != t
    ensures Count(RemovalPass(s, u), t) == Count(s, t)
    decreases |s|
  {
    if s != [] {
      if s[0].tag == u && |s| > 1 {
        RemovalPassCountOther(s[2..], u, t);
        assert ([s[1]] + RemovalPass(s[2..], u))[1..] == RemovalPass(s[2..], u);
        assert s[1..][1..] == s[2..];
      } else if s[0].tag != u {
        RemovalPassCountOther(s[1..], u, t);
        assert ([s[0]] + RemovalPass(s[1..], u))[1..] == RemovalPass(s[1..], u);
      }
    }
  }

  lemma RemovalPassCountLeq(s: seq<Element>, u: Tag, t: Tag)
    ensures Count(RemovalPass(s, u), t) <= Count(s, t)
  {
    if u == t { RemovalPassHalves(s, t); } else { RemovalPassCountOther(s, u, t); }
  }

  /** The passes never remove a child whose tag is not listed, and keep the
      order of those children. */
  lemma {:induction false} PruneKeepsUnlisted(s: seq<Element>, tags: seq<Tag>, listed: seq<Tag>)
    requires forall k :: 0 <= k < |tags| ==> tags[k] in listed
    ensures Without(PruneTags(s, tags), listed) == Without(s, listed)
    decreases |tags|
  {
    if tags != [] {
      PruneKeepsUnlisted(s, tags[..|tags| - 1], listed);
      RemovalPassKeepsOthers(PruneTags(s, tags[..|tags| - 1]), tags[|tags| - 1], listed);
    }
  }

  /** What survives is some of the original children in their original order. */
  lemma {:induction false} PruneSubsequence(s: seq<Element>, tags: seq<Tag>)
    ensures IsSubsequence(PruneTags(s, tags), s)
    decreases |tags|
  {
    if tags == [] {
      SubsequenceReflexive(s);
    } else {
      var before := PruneTags(s, tags[..|tags| - 1]);
      PruneSubsequence(s, tags[..|tags| - 1]);
      RemovalPassSubsequence(before, tags[|tags| - 1]);
      SubsequenceTransitive(PruneTags(s, tags), before, s);
    }
  }

  lemma {:induction false} SubsequenceReflexive(s: seq<Element>)
    ensures IsSubsequence(s, s)
    decreases |s|
  {
    if s != [] {
      SubsequenceReflexive(s[1..]);
    }
  }

  lemma {:induction false} PruneCountLeq(s: seq<Element>, tags: seq<Tag>, t: Tag)
    ensures Count(PruneTags(s, tags), t) <= Count(s, t)
    decreases |tags|
  {
    if tags != [] {
      PruneCountLeq(s, tags[..|tags| - 1], t);
      RemovalPassCountLeq(PruneTags(s, tags[..|tags| - 1]), tags[|tags| - 1], t);
    }
  }

  /** Children whose tag is not listed all survive. */
  lemma {:induction false} PruneCountUnlisted(s: seq<Element>, tags: seq<Tag>, u: Tag)
    requires u !in tags
    ensures Count(PruneTags(s, tags), u) == Count(s, u)
    decreases |tags|
  {
    if tags != [] {
      assert tags == tags[..|tags| - 1] + [tags[|tags| - 1]];
      PruneCountUnlisted(s, tags[..|tags| - 1], u);
      RemovalPassCountOther(PruneTags(s, tags[..|tags| - 1]), tags[|tags| - 1], u);
    }
  }

  /** Of the children with a listed tag, at most half (rounded down)
      survive. */
  lemma {:induction false} PruneHalves(s: seq<Element>, tags: seq<Tag>, t: Tag)
    requires t in tags
    ensures 2 * Count(PruneTags(s, tags), t) <= Count(s, t)
    decreases |tags|
  {
    var init, last := tags[..|tags| - 1], tags[|tags| - 1];
    assert tags == init + [last];
    if last == t {
      PruneCountLeq(s, init, t);
      RemovalPassHalves(PruneTags(s, init), t);
    } else {
      PruneHalves(s, init, t);
      RemovalPassCountOther(PruneTags(s, init), last, t);
    }
  }

  lemma {:induction false} NoListedIsWithout(s: seq<Element>, tags: seq<Tag>)
    requires forall t :: t in tags ==> Count(s, t) == 0
    ensures Without(s, tags) == s
    decreases |s|
  {
    if s != [] {
      assert Count(s, s[0].tag) > 0;
      forall t | t in tags ensures Count(s[1..], t) == 0 {
        assert Count(s[1..], t) <= Count(s, t);
      }
      NoListedIsWithout(s[1..], tags);
      assert s == [s[0]] + s[1..];
    }
  }

  /** The deletion keeps every section the ArcGIS 1.0 format reuses
      (`eainfo`, `spdoinfo`) and every other unlisted child, in order, and
      keeps only original children in their original order. */
  lemma FgdcPruneKeepsUnlisted(s: seq<Element>)
    ensures Without(PruneTags(s, FGDC_TAGS), FGDC_TAGS) == Without(s, FGDC_TAGS)
    ensures IsSubsequence(PruneTags(s, FGDC_TAGS), s)
    ensures Count(PruneTags(s, FGDC_TAGS), "eainfo") == Count(s, "eainfo")
    ensures Count(PruneTags(s, FGDC_TAGS), "spdoinfo") == Count(s, "spdoinfo")
  {
    PruneKeepsUnlisted(s, FGDC_TAGS, FGDC_TAGS);
    PruneSubsequence(s, FGDC_TAGS);
    PruneCountUnlisted(s, FGDC_TAGS, "eainfo");
    PruneCountUnlisted(s, FGDC_TAGS, "spdoinfo");
  }

  /** When each FGDC section occurs at most once among the children, the
      deletion removes all of them and nothing else. */
  lemma FgdcPruneRemovesSingleSections(s: seq<Element>)
    requires forall t :: t in FGDC_TAGS ==> Count(s, t) <= 1
    ensures PruneTags(s, FGDC_TAGS) == Without(s, FGDC_TAGS)
  {
    var r := PruneTags(s, FGDC_TAGS);
    forall t | t in FGDC_TAGS ensures Count(r, t) == 0 {
      PruneHalves(s, FGDC_TAGS, t);
    }
    NoListedIsWithout(r, FGDC_TAGS);
    PruneKeepsUnlisted(s, FGDC_TAGS, FGDC_TAGS);
  }

  lemma {:induction false} RemovalPassNoMatch(s: seq<Element>, t: Tag)
    requires forall k :: 0 <= k < |s| ==> s[k].tag != t
    ensures RemovalPass(s, t) == s
    decreases |s|
  {
    if s != [] {
      RemovalPassNoMatch(s[1..], t);
      assert s == [s[0]] + s[1..];
    }
  }

  lemma {:induction false} PruneNoMatch(s: seq<Element>, tags: seq<Tag>)
    requires forall k :: 0 <= k < |s| ==> s[k].tag !in tags
    ensures PruneTags(s, tags) == s
    decreases |tags|
  {
    if tags != [] {
      var init := tags[..|tags| - 1];
      forall k | 0 <= k < |s| ensures s[k].tag !in init {
        assert forall u :: u in init ==> u in tags;
      }
      PruneNoMatch(s, init);
      RemovalPassNoMatch(s, tags[|tags| - 1]);
    }
  }

  /** Running the passes for `a` and then those for `b` is running those
      for `a + b`. */
  lemma {:induction false} PruneTagsAppend(s: seq<Element>, a: seq<Tag>, b: seq<Tag>)
    ensures PruneTags(s, a + b) == PruneTags(PruneTags(s, a), b)
    decreases |b|
  {
    if b == [] {
      assert a + b == a;
    } else {
      var init := b[..|b| - 1];
      assert (a + b)[..|a + b| - 1] == a + init;
      assert (a + b)[|a + b| - 1] == b[|b| - 1];
      PruneTagsAppend(s, a, init);
    }
  }

  /** Two neighbouring `idinfo` sections: the second one is passed over
      and survives. */
  lemma AdjacentDuplicateSurvives(x: Element, y: Element)
    requires x.tag == "idinfo" && y.tag == "idinfo"
    ensures PruneTags([x, y], FGDC_TAGS) == [y]
  {
    var rest := FGDC_TAGS[1..];
    assert FGDC_TAGS == ["idinfo"] + rest;
    PruneTagsAppend([x, y], ["idinfo"], rest);
    assert PruneTags([x, y], ["idinfo"]) == RemovalPass([x, y], "idinfo") == [y];
    PruneNoMatch([y], rest);
  }

  /** `citeinfo`, `idinfo`, `citeinfo`: the `idinfo` pass makes the two
      `citeinfo` sections neighbours, and the `citeinfo` pass then passes
      over the second. */
  lemma EarlierPassCreatesNeighbours(c1: Element, i: Element, c2: Element)
    requires c1.tag == "citeinfo" && i.tag == "idinfo" && c2.tag == "citeinfo"
    ensures PruneTags([c1, i, c2], FGDC_TAGS) == [c2]
  {
    var first, middle, last := FGDC_TAGS[..5], FGDC_TAGS[5..6], FGDC_TAGS[6..];
    assert FGDC_TAGS == first + middle + last;
    assert middle == ["citeinfo"];
    PruneTagsAppend([c1, i, c2], first, middle);
    PruneTagsAppend([c1, i, c2], first + middle, last);
    var head := first[1..];
    assert first == ["idinfo"] + head;
    PruneTagsAppend([c1, i, c2], ["idinfo"], head);
    assert [c1, i, c2][1..] == [i, c2] && [i, c2][2..] == [];
    assert RemovalPass([c1, i, c2], "idinfo") == [c1] + RemovalPass([i, c2], "idinfo") == [c1, c2];
    PruneNoMatch([c1, c2], head);
    assert PruneTags([c1, c2], middle) == RemovalPass([c1, c2], "citeinfo") == [c2];
    PruneNoMatch([c2], last);
  }
}
