/**
 * A worked listing: the parent link, a USA release, a European release and a European
 * demo, filtered for "Europe" with the limit off. Only the European release is kept.
 */
module Scenarios {
  import opened Text
  import opened Url
  import opened EntryFilter
  import opened WorkItems

  lemma NoMarkerWithout(name: string)
    requires forall k :: 0 <= k < |ExcludedKeywords| ==> ExcludedKeywords[k][1] !in name
    ensures !ContainsAny(name, ExcludedKeywords)
  {
    ContainsAnyIff(name, ExcludedKeywords);
    forall k | 0 <= k < |ExcludedKeywords| ensures !Contains(name, ExcludedKeywords[k]) {
      var kw := ExcludedKeywords[k];
      if Contains(name, kw) {
        ContainedCharsOccur(name, kw, 1);
      }
    }
  }

  lemma PlainName(s: string)
    requires '/' !in s && '%' !in s
    ensures FileNameOf(s) == s
  {
    LastSegmentNoSlash(s);
    UnquotePlain(s);
  }

  /** A plain name carrying the region and no marker's second character is accepted. */
  lemma PlainNameAccepted(name: string, region: string)
    requires '/' !in name && '%' !in name && Contains(name, region)
    requires forall k :: 0 <= k < |ExcludedKeywords| ==> ExcludedKeywords[k][1] !in name
    ensures IsValidFile(name, region)
  {
    PlainName(name);
    RegionTest(name, region);
    NoMarkerWithout(name);
  }

  /** A plain name lacking the region's first character and the 'W' of "(World)" is rejected. */
  lemma PlainNameWithoutRegion(name: string, region: string)
    requires '/' !in name && '%' !in name && |region| > 0 && region[0] !in name && WorldTag[1] !in name
    ensures !IsValidFile(name, region)
  {
    PlainName(name);
    if Contains(name, region) { ContainedCharsOccur(name, region, 0); }
    if Contains(name, WorldTag) { ContainedCharsOccur(name, WorldTag, 1); }
    RejectsWithoutRegion(name, region);
  }

  /** A plain name carrying an excluded marker is rejected. */
  lemma PlainNameWithMarker(name: string, region: string, k: nat)
    requires '/' !in name && '%' !in name && k < |ExcludedKeywords| && Contains(name, ExcludedKeywords[k])
    ensures !IsValidFile(name, region)
  {
    PlainName(name);
    RejectsExcludedKeyword(name, region, k);
  }

  lemma UsaLetters(usa: string)
    requires usa == "a(USA).zip"
    ensures '/' !in usa && '%' !in usa && 'E' !in usa && 'W' !in usa
  {
  }

  lemma EuropeLetters(europe: string)
    requires europe == "b(Europe).zip"
    ensures '/' !in europe && '%' !in europe && OccursAt(europe, "Europe", 2)
    ensures forall k :: 0 <= k < |ExcludedKeywords| ==> ExcludedKeywords[k][1] !in europe
  {
  }

  lemma DemoLetters(demo: string)
    requires demo == "c(Europe)(Demo).zip"
    ensures '/' !in demo && '%' !in demo && OccursAt(demo, ExcludedKeywords[8], 9)
  {
  }

  lemma ParentRejected(up: string)
    requires up == "../"
    ensures !IsValidFile(up, "Europe")
  {
    assert LastSegment(up) == "";
    RejectsWithoutRegion(up, "Europe");
  }

  lemma UsaRejected(usa: string)
    requires usa == "a(USA).zip"
    ensures !IsValidFile(usa, "Europe")
  {
    UsaLetters(usa);
    PlainNameWithoutRegion(usa, "Europe");
  }

  lemma EuropeAccepted(europe: string)
    requires europe == "b(Europe).zip"
    ensures IsValidFile(europe, "Europe")
  {
    EuropeLetters(europe);
    PlainNameAccepted(europe, "Europe");
  }

  lemma DemoRejected(demo: string)
    requires demo == "c(Europe)(Demo).zip"
    ensures !IsValidFile(demo, "Europe")
  {
    DemoLetters(demo);
    PlainNameWithMarker(demo, "Europe", 8);
  }

  lemma KeepOnlyThird(links: seq<string>, region: string)
    requires |links| == 4
    requires !IsValidFile(links[0], region) && !IsValidFile(links[1], region)
    requires IsValidFile(links[2], region) && !IsValidFile(links[3], region)
    ensures Keep(links, region) == [links[2]]
  {
    var t1, t2, t3 := links[1..], links[2..], links[3..];
    assert t1[1..] == t2 && t2[1..] == t3 && t3[1..] == [];
    assert Keep(t3, region) == [];
    assert Keep(t2, region) == [links[2]];
    assert Keep(t1, region) == [links[2]];
  }

  lemma ExampleListing(up: string, usa: string, europe: string, demo: string)
    requires up == "../" && usa == "a(USA).zip" && europe == "b(Europe).zip" && demo == "c(Europe)(Demo).zip"
    ensures WorkList([up, usa, europe, demo], "Europe", false, 10) == [europe]
  {
    ParentRejected(up);
    UsaRejected(usa);
    EuropeAccepted(europe);
    DemoRejected(demo);
    var links := [up, usa, europe, demo];
    assert links[0] == up && links[1] == usa && links[2] == europe && links[3] == demo;
    KeepOnlyThird(links, "Europe");
  }
}
