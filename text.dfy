/**
 * String operations the downloader relies on, with the meaning Python gives them:
 * `sub in s` (substring containment), `s.startswith(p)` and `s.split('/')[-1]`
 * (the text after the last slash).
 */
module Text {

  /** Python's `s.startswith(p)`. */
  predicate StartsWith(s: string, p: string) {
    |p| <= |s| && s[..|p|] == p
  }

  /** `sub` occurs in `s` at position `i`: the reference meaning of containment. */
  ghost predicate OccursAt(s: string, sub: string, i: int) {
    0 <= i && i + |sub| <= |s| && s[i..i + |sub|] == sub
  }

  /** Python's `sub in s`, computed by trying every start position from the left. */
  function Contains(s: string, sub: string): (r: bool)
    ensures r <==> exists i :: OccursAt(s, sub, i)
    decreases |s|
  {
    OccursStep(s, sub);
    if StartsWith(s, sub) then true
    else if |s| == 0 then false
    else Contains(s[1..], sub)
  }

  /** An occurrence is either at the front or an occurrence in the tail shifted by one. */
  lemma OccursStep(s: string, sub: string)
    ensures (exists i :: OccursAt(s, sub, i)) <==>
            StartsWith(s, sub) || (|s| > 0 && exists i :: OccursAt(s[1..], sub, i))
  {
    if StartsWith(s, sub) {
      assert OccursAt(s, sub, 0);
    }
    if |s| > 0 {
      forall i | OccursAt(s[1..], sub, i) ensures OccursAt(s, sub, i + 1) {
        assert s[1..][i..i + |sub|] == s[i + 1..i + 1 + |sub|];
      }
      forall i | OccursAt(s, sub, i) && i > 0 ensures OccursAt(s[1..], sub, i - 1) {
        assert s[1..][i - 1..i - 1 + |sub|] == s[i..i + |sub|];
      }
    }
  }

  /** Every character of a contained string is a character of the containing one. */
  lemma ContainedCharsOccur(s: string, sub: string, k: int)
    requires Contains(s, sub) && 0 <= k < |sub|
    ensures sub[k] in s
  {
    var i :| OccursAt(s, sub, i);
    assert s[i..i + |sub|][k] == s[i + k];
  }

  /**
   * Where the segment of `s[..j]` after its last slash begins: just after that slash, or
   * at 0 when there is none.
   */
  function SegmentStart(s: string, j: nat): (b: nat)
    requires j <= |s|
    ensures b <= j
    ensures forall m :: b <= m < j ==> s[m] != '/'
    ensures b > 0 ==> s[b - 1] == '/'
    decreases j
  {
    if j == 0 then 0
    else if s[j - 1] == '/' then j
    else SegmentStart(s, j - 1)
  }

  /** Python's `s.split('/')[-1]`: the text after the last slash, or all of `s` when it has none. */
  function LastSegment(s: string): string {
    s[SegmentStart(s, |s|)..]
  }

  /**
   * `t` is the last segment of `s` in the reference sense: it has no slash, it is a
   * suffix of `s`, and it is either the whole of `s` or preceded by a slash.
   */
  ghost predicate IsLastSegment(s: string, t: string) {
    && '/' !in t
    && |t| <= |s| && t == s[|s| - |t|..]
    && (|t| < |s| ==> s[|s| - |t| - 1] == '/')
  }

  /** LastSegment computes the last segment in the reference sense. */
  lemma LastSegmentShape(s: string)
    ensures IsLastSegment(s, LastSegment(s))
  {
    var b := SegmentStart(s, |s|);
    var t := s[b..];
    forall m | 0 <= m < |t| ensures t[m] != '/' {
      assert t[m] == s[b + m];
    }
  }

  /** A last segment cannot be shorter than another slash-free suffix. */
  lemma SegmentsAgree(s: string, t: string, u: string)
    requires IsLastSegment(s, t) && '/' !in u && |u| <= |s| && u == s[|s| - |u|..]
    ensures |u| <= |t|
  {
  }

  /** The reference properties determine the last segment: there is exactly one. */
  lemma LastSegmentUnique(s: string, t: string)
    requires IsLastSegment(s, t)
    ensures t == LastSegment(s)
  {
    var u := LastSegment(s);
    LastSegmentShape(s);
    SegmentsAgree(s, t, u);
    SegmentsAgree(s, u, t);
  }

  /**
   * Only the text after the last slash matters: a suffix `q` with a slash decides the
   * last segment alone, and a slash-free suffix is glued onto the last segment of what
   * precedes it.
   */
  lemma LastSegmentOfJoin(p: string, q: string)
    ensures '/' in q ==> LastSegment(p + q) == LastSegment(q)
    ensures '/' !in q ==> LastSegment(p + q) == LastSegment(p) + q
  {
    var s := p + q;
    if '/' in q {
      var t := LastSegment(q);
      LastSegmentShape(q);
      assert s[|s| - |t|..] == q[|q| - |t|..];
      if |t| == |q| {
        assert false;
      }
      assert s[|s| - |t| - 1] == q[|q| - |t| - 1];
      LastSegmentUnique(s, t);
    } else {
      var t := LastSegment(p) + q;
      LastSegmentShape(p);
      assert s[|s| - |t|..] == p[|p| - |LastSegment(p)|..] + q;
      if |t| < |s| {
        assert s[|s| - |t| - 1] == p[|p| - |LastSegment(p)| - 1];
      }
      LastSegmentUnique(s, t);
    }
  }

  /** A prefix ending in a slash does not change the last segment. */
  lemma LastSegmentAfterSlash(p: string, q: string)
    requires |p| > 0 && p[|p| - 1] == '/'
    ensures LastSegment(p + q) == LastSegment(q)
  {
    LastSegmentOfJoin(p, q);
    if '/' !in q {
      LastSegmentNoSlash(q);
    }
  }

  /** A string without a slash is its own last segment. */
  lemma LastSegmentNoSlash(s: string)
    requires '/' !in s
    ensures LastSegment(s) == s
  {
    LastSegmentUnique(s, s);
  }

  /** Taking the last segment twice changes nothing. */
  lemma LastSegmentIdempotent(s: string)
    ensures LastSegment(LastSegment(s)) == LastSegment(s)
  {
    var t := LastSegment(s);
    LastSegmentShape(s);
    LastSegmentUnique(t, t);
  }
}
