/**
 * The file-name filter of the downloader: an anchor's href is accepted when the decoded
 * text after its last slash carries the selected region or the "(World)" tag and none of
 * ten markers of pre-release, re-release, unlicensed or promotional builds. All matching
 * is case-sensitive substring containment.
 */
module EntryFilter {
  import opened Text
  import opened Url

  /** The tag of a region-free release, accepted whatever region is selected. */
  const WorldTag := "(World)"

  /** The markers that exclude a file, in the order the downloader lists them. */
  const ExcludedKeywords: seq<string> := [
    "(Beta)", "(Alpha)", "(Proto)",
    "(Virtual Console)",
    "(Aftermarket)", "(Unl)",
    "(Sample)", "(Promo)", "(Demo)", "(Kiosk)"
  ]

  /** Python's `any(t in name for t in tags)`. */
  predicate ContainsAny(name: string, tags: seq<string>) {
    |tags| > 0 && (Contains(name, tags[0]) || ContainsAny(name, tags[1..]))
  }

  /** `any` over a list is the existence of a matching element. */
  lemma {:induction false} ContainsAnyIff(name: string, tags: seq<string>)
    ensures ContainsAny(name, tags) <==> exists k :: 0 <= k < |tags| && Contains(name, tags[k])
  {
    if |tags| > 0 {
      ContainsAnyIff(name, tags[1..]);
      forall k | 0 < k < |tags| ensures tags[k] == tags[1..][k - 1] { }
    }
  }

  /** The region test: the region or the "(World)" tag occurs in the name. */
  lemma RegionTest(name: string, region: string)
    ensures ContainsAny(name, [region, WorldTag]) <==> Contains(name, region) || Contains(name, WorldTag)
  {
    var tags := [region, WorldTag];
    assert tags[1..] == [WorldTag] && [WorldTag][1..] == [];
    assert ContainsAny(name, tags) == (Contains(name, region) || ContainsAny(name, [WorldTag]));
    assert ContainsAny(name, [WorldTag]) == (Contains(name, WorldTag) || ContainsAny(name, []));
  }

  /** The human-readable file name of an href: its last path segment, percent-decoded. */
  function FileNameOf(href: string): string {
    Unquote(LastSegment(href))
  }

  /**
   * The decision on a decoded name. The region list `[region, "(World)"]` is never empty,
   * so the region test always applies; the keyword test applies to every name.
   */
  predicate IsValidName(name: string, region: string) {
    ContainsAny(name, [region, WorldTag]) && !ContainsAny(name, ExcludedKeywords)
  }

  /** The filter applied to an anchor's href. */
  predicate IsValidFile(href: string, region: string) {
    IsValidName(FileNameOf(href), region)
  }

  /**
   * The filter stated with the reference meaning of containment: a name is accepted
   * exactly when the region or "(World)" occurs in it and no excluded marker does.
   */
  lemma IsValidFileIff(href: string, region: string)
    ensures IsValidFile(href, region) <==>
      var name := FileNameOf(href);
      ((exists i :: OccursAt(name, region, i)) || (exists i :: OccursAt(name, WorldTag, i))) &&
      forall k :: 0 <= k < |ExcludedKeywords| ==> !exists i :: OccursAt(name, ExcludedKeywords[k], i)
  {
    var name := FileNameOf(href);
    RegionTest(name, region);
    ContainsAnyIff(name, ExcludedKeywords);
  }

  /** A name carrying neither the region nor "(World)" is rejected. */
  lemma RejectsWithoutRegion(href: string, region: string)
    requires !Contains(FileNameOf(href), region) && !Contains(FileNameOf(href), WorldTag)
    ensures !IsValidFile(href, region)
  {
    RegionTest(FileNameOf(href), region);
  }

  /** A name carrying any excluded marker is rejected, whatever region it carries. */
  lemma RejectsExcludedKeyword(href: string, region: string, k: nat)
    requires k < |ExcludedKeywords| && Contains(FileNameOf(href), ExcludedKeywords[k])
    ensures !IsValidFile(href, region)
  {
    ContainsAnyIff(FileNameOf(href), ExcludedKeywords);
  }

  /** A directory prefix does not change the name an href stands for. */
  lemma FileNameIgnoresDirectory(dir: string, href: string)
    ensures FileNameOf(LastSegment(href)) == FileNameOf(href)
    ensures FileNameOf(dir + "/" + href) == FileNameOf(href)
  {
    LastSegmentIdempotent(href);
    var p := dir + "/";
    LastSegmentAfterSlash(p, href);
    assert LastSegment(p + href) == LastSegment(href);
  }

  /** Only the text after the last slash is judged: any directory prefix is irrelevant. */
  lemma IsValidFileDependsOnLastSegment(dir: string, href: string, region: string)
    ensures IsValidFile(LastSegment(href), region) == IsValidFile(href, region)
    ensures IsValidFile(dir + "/" + href, region) == IsValidFile(href, region)
  {
    FileNameIgnoresDirectory(dir, href);
  }

  /** An empty region string occurs in every name, so only the keyword test remains. */
  lemma EmptyRegionKeepsOnlyKeywordTest(name: string)
    ensures IsValidName(name, "") == !ContainsAny(name, ExcludedKeywords)
  {
    assert OccursAt(name, "", 0);
    RegionTest(name, "");
  }

  /** A "(World)" release passes the region test for every selected region. */
  lemma WorldPassesEveryRegion(name: string, region: string)
    requires Contains(name, WorldTag)
    ensures IsValidName(name, region) == !ContainsAny(name, ExcludedKeywords)
  {
    RegionTest(name, region);
  }
}
