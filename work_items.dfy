/**
 * The downloader's work list and per-item naming: which anchors of the listing are
 * considered (all of them, or `links[1:limit]` when the "Limit files" option is on),
 * which of those pass the file-name filter, in listing order, and the URL and file name
 * each item is fetched from and written to.
 */
module WorkItems {
  import opened Text
  import opened Url
  import opened EntryFilter

  /** The fixed prefix of every listing the downloader reads. */
  const ListingRoot := "https://myrient.erista.me/files/No-Intro/"

  /** The listing URL for a console entry: the prefix and the percent-encoded entry. */
  function BaseUrl(console: string): string {
    ListingRoot + Quote(console)
  }

  /** Console entries ending in '/' give a base URL ending in '/', so relative hrefs become child paths. */
  lemma BaseUrlEndsWithSlash(console: string)
    requires |console| > 0 && console[|console| - 1] == '/'
    ensures |BaseUrl(console)| > 0 && BaseUrl(console)[|BaseUrl(console)| - 1] == '/'
  {
    QuoteKeepsTrailingSlash(console);
  }

  function Min(a: int, b: int): int { if a <= b then a else b }
  function Max(a: int, b: int): int { if a <= b then b else a }

  /** Python's reading of a slice bound `x` against a sequence of length `n` (negative counts from the end). */
  function SliceBound(x: int, n: nat): (b: nat)
    ensures b <= n
  {
    if x < 0 then Max(x + n, 0) else Min(x, n)
  }

  /** Python's `s[1:stop]`. */
  function TailUpTo<T>(s: seq<T>, stop: int): seq<T> {
    var lo := Min(1, |s|);
    var hi := SliceBound(stop, |s|);
    if hi <= lo then [] else s[lo..hi]
  }

  /** The anchors the filter is applied to. */
  function Candidates(links: seq<string>, doLimit: bool, limit: int): seq<string> {
    if doLimit then TailUpTo(links, limit) else links
  }

  /**
   * With the limit on, the candidates are a prefix of the anchors after the first: the
   * first anchor is never one of them, and a limit of `limit >= 0` admits at most
   * `limit - 1` of them. A negative limit counts from the end, as Python slices do.
   */
  lemma LimitedCandidates(links: seq<string>, limit: int)
    requires |links| > 0
    ensures var c := Candidates(links, true, limit);
      && |c| <= |links| - 1
      && c == links[1..][..|c|]
      && (0 <= limit ==> |c| == Min(|links| - 1, Max(limit - 1, 0)))
      && (limit < 0 ==> |c| == Max(|links| + limit - 1, 0))
  {
  }

  /** The elements of `s` that satisfy `p`, in their order. */
  function Filter<T>(p: T -> bool, s: seq<T>): (r: seq<T>)
    ensures forall x <- r :: p(x)
    ensures forall x <- s :: p(x) ==> x in r
    ensures |r| <= |s|
  {
    if s == [] then []
    else if p(s[0]) then [s[0]] + Filter(p, s[1..])
    else Filter(p, s[1..])
  }

  /** `a` is `b` with some elements left out, the rest in their order. */
  ghost predicate IsSubsequence<T>(a: seq<T>, b: seq<T>)
    decreases |b|
  {
    a == [] || (b != [] && ((a[0] == b[0] && IsSubsequence(a[1..], b[1..])) || IsSubsequence(a, b[1..])))
  }

  lemma {:induction false} SubsequenceOfLonger<T>(a: seq<T>, b: seq<T>, c: seq<T>)
    requires IsSubsequence(a, b)
    ensures IsSubsequence(a, b + c)
    decreases |b|
  {
    if a != [] {
      assert (b + c)[1..] == b[1..] + c;
      if a[0] == b[0] && IsSubsequence(a[1..], b[1..]) {
        SubsequenceOfLonger(a[1..], b[1..], c);
      } else {
        SubsequenceOfLonger(a, b[1..], c);
      }
    }
  }

  /** Filtering keeps the order: the result is a subsequence of the input. */
  lemma {:induction false} FilterIsSubsequence<T>(p: T -> bool, s: seq<T>)
    ensures IsSubsequence(Filter(p, s), s)
  {
    if s != [] {
      FilterIsSubsequence(p, s[1..]);
    }
  }

  /** Filtering a concatenation filters each part: with one-element inputs this determines Filter entirely. */
  lemma {:induction false} FilterAppend<T>(p: T -> bool, a: seq<T>, b: seq<T>)
    ensures Filter(p, a + b) == Filter(p, a) + Filter(p, b)
  {
    if a != [] {
      assert (a + b)[0] == a[0] && (a + b)[1..] == a[1..] + b;
      FilterAppend(p, a[1..], b);
    } else {
      assert a + b == b;
    }
  }

  /** The list comprehension `[h for h in hrefs if is_valid_file(h)]`. */
  function Keep(hrefs: seq<string>, region: string): (r: seq<string>)
    ensures forall h <- r :: IsValidFile(h, region)
    ensures forall h <- hrefs :: IsValidFile(h, region) ==> h in r
    ensures |r| <= |hrefs|
  {
    Filter(h => IsValidFile(h, region), hrefs)
  }

  /** The work list of a run. */
  function WorkList(links: seq<string>, region: string, doLimit: bool, limit: int): seq<string> {
    Keep(Candidates(links, doLimit, limit), region)
  }

  /**
   * With the limit on, the work list is drawn in order from the anchors after the first
   * and has at most `limit - 1` items for a limit of zero or more.
   */
  lemma LimitedWorkList(links: seq<string>, region: string, limit: int)
    requires |links| > 0
    ensures IsSubsequence(WorkList(links, region, true, limit), links[1..])
    ensures 0 <= limit ==> |WorkList(links, region, true, limit)| <= Max(limit - 1, 0)
  {
    var c := Candidates(links, true, limit);
    LimitedCandidates(links, limit);
    FilterIsSubsequence(h => IsValidFile(h, region), c);
    assert links[1..] == c + links[1..][|c|..];
    SubsequenceOfLonger(Keep(c, region), c, links[1..][|c|..]);
  }

  /** With the limit off, every anchor is a candidate, the first included. */
  lemma UnlimitedWorkList(links: seq<string>, region: string, limit: int)
    ensures IsSubsequence(WorkList(links, region, false, limit), links)
    ensures |links| > 0 && IsValidFile(links[0], region) ==>
      |WorkList(links, region, false, limit)| > 0 && WorkList(links, region, false, limit)[0] == links[0]
  {
    FilterIsSubsequence(h => IsValidFile(h, region), links);
  }

  /** `file_url`: an absolute href as it is, anything else appended to the base URL. */
  function ItemUrl(base: string, href: string): string {
    if StartsWith(href, "http") then href else base + href
  }

  /**
   * The file written for an item is named after the same decoded segment the filter judged,
   * unless a relative slash-free href is appended to a base URL that does not end in '/',
   * in which case the base's own last segment is glued in front of it.
   */
  lemma ItemFileName(base: string, href: string)
    ensures StartsWith(href, "http") || '/' in href || (|base| > 0 && base[|base| - 1] == '/') ==>
      FileNameOf(ItemUrl(base, href)) == FileNameOf(href)
    ensures !StartsWith(href, "http") && '/' !in href ==>
      FileNameOf(ItemUrl(base, href)) == Unquote(LastSegment(base) + href)
  {
    if !StartsWith(href, "http") {
      LastSegmentOfJoin(base, href);
      if |base| > 0 && base[|base| - 1] == '/' {
        LastSegmentAfterSlash(base, href);
      }
      assert '/' in href || (|base| > 0 && base[|base| - 1] == '/') ==>
        LastSegment(base + href) == LastSegment(href);
    }
  }

  /** The URL of every item, in order. */
  function ItemUrls(base: string, work: seq<string>): (urls: seq<string>)
    ensures |urls| == |work|
  {
    if work == [] then [] else [ItemUrl(base, work[0])] + ItemUrls(base, work[1..])
  }

  /** The file name of every item, in order. */
  function ItemNames(base: string, work: seq<string>): (names: seq<string>)
    ensures |names| == |work|
  {
    if work == [] then [] else [FileNameOf(ItemUrl(base, work[0]))] + ItemNames(base, work[1..])
  }

  /** Item `j`'s entries in the URL and name lists are its URL and the decoded last segment of that URL. */
  lemma {:induction false} ItemAt(base: string, work: seq<string>, j: nat)
    requires j < |work|
    ensures ItemUrls(base, work)[j] == ItemUrl(base, work[j])
    ensures ItemNames(base, work)[j] == FileNameOf(ItemUrl(base, work[j]))
  {
    if j > 0 {
      ItemAt(base, work[1..], j - 1);
    }
  }

  /**
   * For a console entry ending in '/', every name the run would write passes the filter
   * for the selected region.
   */
  lemma WrittenNamesPassFilter(console: string, links: seq<string>, region: string, doLimit: bool, limit: int)
    requires |console| > 0 && console[|console| - 1] == '/'
    ensures var work := WorkList(links, region, doLimit, limit);
      var names := ItemNames(BaseUrl(console), work);
      forall j :: 0 <= j < |names| ==> IsValidName(names[j], region)
  {
    var base := BaseUrl(console);
    var work := WorkList(links, region, doLimit, limit);
    BaseUrlEndsWithSlash(console);
    forall j | 0 <= j < |work| ensures IsValidName(ItemNames(base, work)[j], region) {
      assert work[j] in work;
      ItemAt(base, work, j);
      ItemFileName(base, work[j]);
    }
  }
}
