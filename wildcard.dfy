/** `patternHasNotEncryptableWildcard` of common/tools.py: which rsync filter
    patterns still mean something once every path component has been encrypted. */
module Wildcard {
  import opened Strings

  /** A character of `re_wildcard`: a character class bracket or `?`. */
  predicate IsClassOrSingle(ch: char)
  {
    ch == '[' || ch == ']' || ch == '?'
  }

  /** `[^/\*]`: neither a separator nor an asterisk (a newline counts too). */
  predicate Plain(ch: char)
  {
    ch != '/' && ch != '*'
  }

  /** End of the run of asterisks that starts at `k`. */
  function RunEnd(p: string, k: nat): (j: nat)
    requires k <= |p|
    ensures k <= j <= |p|
    ensures forall i :: k <= i < j ==> p[i] == '*'
    ensures j == |p| || p[j] != '*'
    decreases |p| - k
  {
    if k < |p| && p[k] == '*' then RunEnd(p, k + 1) else k
  }

  /** `re_wildcard.search(pattern)` finds something. */
  predicate HasWildcard(p: string)
  {
    exists i :: 0 <= i < |p| && IsClassOrSingle(p[i])
  }

  /** `\*+[^/\*]` matches at `k`. */
  predicate StarsThenPlainAt(p: string, k: nat)
  {
    k < |p| && p[k] == '*' && RunEnd(p, k) < |p| && Plain(p[RunEnd(p, k)])
  }

  /** `[^/\*]\*+` matches at `k`. */
  predicate PlainThenStarsAt(p: string, k: nat)
  {
    k + 1 < |p| && Plain(p[k]) && p[k + 1] == '*'
  }

  // The five alternatives of `re_separate_asterisk`, each tried at start index k.

  /** `^\*+[^/\*]` */
  predicate LeadingStarsThenPlainAt(p: string, k: nat)
  {
    k == 0 && StarsThenPlainAt(p, 0)
  }

  /** `[^/\*]\*+[^/\*]` */
  predicate StarsInsideAt(p: string, k: nat)
  {
    PlainThenStarsAt(p, k) && StarsThenPlainAt(p, k + 1)
  }

  /** `[^/\*]\*+$`, where `$` also matches just before a final newline. */
  predicate TrailingStarsAt(p: string, k: nat)
  {
    PlainThenStarsAt(p, k)
    && (RunEnd(p, k + 1) == |p| || (RunEnd(p, k + 1) == |p| - 1 && p[|p| - 1] == '\n'))
  }

  predicate SeparateAsteriskAt(p: string, k: nat)
  {
    LeadingStarsThenPlainAt(p, k) || StarsInsideAt(p, k) || PlainThenStarsAt(p, k)
    || StarsThenPlainAt(p, k) || TrailingStarsAt(p, k)
  }

  /** The source function. Its `not re_asterisk is None` test is on the compiled
      regex object itself, which is never `None`, so it is always true. */
  predicate PatternHasNotEncryptableWildcard(p: string)
  {
    HasWildcard(p) || exists k :: 0 <= k < |p| && SeparateAsteriskAt(p, k)
  }

  /** An asterisk touching a character that is neither `/` nor `*`. */
  predicate Mixed(a: char, b: char)
  {
    (a == '*' && Plain(b)) || (Plain(a) && b == '*')
  }

  predicate HasMixedPair(p: string)
  {
    exists i :: 0 <= i < |p| - 1 && Mixed(p[i], p[i + 1])
  }

  /** The regex boils down to: some asterisk sits next to an ordinary character. */
  lemma AdjacentForm(p: string)
    ensures PatternHasNotEncryptableWildcard(p) <==> HasWildcard(p) || HasMixedPair(p)
  {
    if k :| 0 <= k < |p| && SeparateAsteriskAt(p, k) {
      if StarsThenPlainAt(p, k) || LeadingStarsThenPlainAt(p, k) {
        var j := RunEnd(p, k);
        assert Mixed(p[j - 1], p[j]);
      } else {
        assert Mixed(p[k], p[k + 1]);
      }
    }
    if i :| 0 <= i < |p| - 1 && Mixed(p[i], p[i + 1]) {
      if p[i] == '*' && Plain(p[i + 1]) {
        assert RunEnd(p, i + 1) == i + 1;
        assert SeparateAsteriskAt(p, i);
      } else {
        assert SeparateAsteriskAt(p, i);
      }
    }
  }

  predicate StarFree(s: string)
  {
    '*' !in s
  }

  predicate AllStars(s: string)
  {
    forall i :: 0 <= i < |s| ==> s[i] == '*'
  }

  predicate SegmentOk(s: string)
  {
    StarFree(s) || AllStars(s)
  }

  /** Every `/`-separated segment is either free of asterisks or made only of them. */
  predicate WholeSegments(p: string)
  {
    var segs := Split(p, '/');
    forall k :: 0 <= k < |segs| ==> SegmentOk(segs[k])
  }

  lemma MixedCons(p: string)
    requires |p| > 0
    ensures HasMixedPair(p) <==> (|p| > 1 && Mixed(p[0], p[1])) || HasMixedPair(p[1..])
  {
    if i :| 0 <= i < |p| - 1 && Mixed(p[i], p[i + 1]) {
      if i > 0 {
        assert Mixed(p[1..][i - 1], p[1..][i]);
      }
    }
    if i :| 0 <= i < |p[1..]| - 1 && Mixed(p[1..][i], p[1..][i + 1]) {
      assert Mixed(p[i + 1], p[i + 2]);
    }
  }

  /** Putting a character other than `/` in front of a segment. */
  lemma HeadSegment(c: char, r0: string)
    requires c != '/' && '/' !in r0
    ensures SegmentOk([c] + r0) <==> SegmentOk(r0) && !(r0 != "" && Mixed(c, r0[0]))
  {
    var head := [c] + r0;
    assert forall i :: 0 < i < |head| ==> head[i] == r0[i - 1];
    if c == '*' {
      assert !StarFree(head) by { assert head[0] in head; }
      if AllStars(r0) {
        forall i | 0 <= i < |head| ensures head[i] == '*' {
          if i > 0 { assert head[i] == r0[i - 1]; }
        }
      }
      if AllStars(head) {
        forall i | 0 <= i < |r0| ensures r0[i] == '*' {
          assert r0[i] == head[i + 1];
        }
      }
      if SegmentOk(r0) && r0 != "" && !Plain(r0[0]) {
        assert r0[0] in r0;
      }
    } else {
      assert !AllStars(head) by { assert head[0] != '*'; }
      assert forall x :: x in head <==> x == c || x in r0;
      if AllStars(r0) && r0 != "" {
        assert r0[0] == '*';
      }
    }
  }

  /** The step of `SegmentForm` for a pattern that starts with `/`. */
  lemma SegmentsAfterSep(p: string)
    requires |p| > 0 && p[0] == '/'
    ensures WholeSegments(p) <==> WholeSegments(p[1..])
  {
    var rest := Split(p[1..], '/');
    var segs := Split(p, '/');
    assert segs == [""] + rest;
    assert forall k :: 1 <= k < |segs| ==> segs[k] == rest[k - 1];
    assert SegmentOk(segs[0]);
    if WholeSegments(p[1..]) {
      forall k | 0 <= k < |segs| ensures SegmentOk(segs[k]) {
        if k > 0 { assert SegmentOk(rest[k - 1]); }
      }
    }
    if WholeSegments(p) {
      forall k | 0 <= k < |rest| ensures SegmentOk(rest[k]) {
        assert SegmentOk(segs[k + 1]);
      }
    }
  }

  /** The step of `SegmentForm` for a pattern that starts with another character. */
  lemma SegmentsAfterChar(p: string)
    requires |p| > 0 && p[0] != '/'
    ensures WholeSegments(p) <==> WholeSegments(p[1..]) && !(|p| > 1 && Mixed(p[0], p[1]))
  {
    var rest := Split(p[1..], '/');
    var r0 := rest[0];
    assert r0 == "" ==> |p| == 1 || p[1] == '/';
    assert r0 != "" ==> r0[0] == p[1];
    var segs := Split(p, '/');
    assert segs == [[p[0]] + r0] + rest[1..];
    HeadSegment(p[0], r0);
    assert segs[0] == [p[0]] + r0;
    assert forall k :: 1 <= k < |segs| ==> segs[k] == rest[k];
    assert WholeSegments(p[1..]) <==> SegmentOk(r0) && forall k :: 1 <= k < |rest| ==> SegmentOk(rest[k]);
  }

  // Apart from '[', ']' and '?', the predicate rejects exactly the patterns in which
  // an asterisk shares a path segment with other characters: "foo/*", "*/bar" and
  // "**/bar" pass, "foo*" and "foo/*bar" do not.
  lemma {:induction false} SegmentForm(p: string)
    ensures !HasMixedPair(p) <==> WholeSegments(p)
  {
    if |p| > 0 {
      SegmentForm(p[1..]);
      MixedCons(p);
      if p[0] == '/' {
        SegmentsAfterSep(p);
      } else {
        SegmentsAfterChar(p);
      }
    }
  }

  /** The wildcard forms the source's comment accepts. */
  lemma AcceptedExamples()
    ensures !PatternHasNotEncryptableWildcard("foo/*")
    ensures !PatternHasNotEncryptableWildcard("foo/*/bar")
    ensures !PatternHasNotEncryptableWildcard("*/bar")
    ensures !PatternHasNotEncryptableWildcard("**/bar")
  {
    AcceptedByAdjacency("foo/*");
    AcceptedByAdjacency("foo/*/bar");
    AcceptedByAdjacency("*/bar");
    AcceptedByAdjacency("**/bar");
  }

  lemma AcceptedByAdjacency(p: string)
    requires forall i :: 0 <= i < |p| ==> !IsClassOrSingle(p[i])
    requires forall i :: 0 <= i < |p| - 1 ==> !Mixed(p[i], p[i + 1])
    ensures !PatternHasNotEncryptableWildcard(p)
  {
    AdjacentForm(p);
  }

  /** The wildcard forms the source's comment rejects, and patterns holding a bracket class or `?`. */
  lemma RejectedExamples()
    ensures PatternHasNotEncryptableWildcard("foo*")
    ensures PatternHasNotEncryptableWildcard("foo/*bar")
    ensures PatternHasNotEncryptableWildcard("foo?/bar")
    ensures PatternHasNotEncryptableWildcard("foo[0-9]/bar")
  {
    AdjacentForm("foo*");
    assert Mixed("foo*"[2], "foo*"[3]);
    AdjacentForm("foo/*bar");
    assert Mixed("foo/*bar"[4], "foo/*bar"[5]);
    assert IsClassOrSingle("foo?/bar"[3]);
    assert IsClassOrSingle("foo[0-9]/bar"[3]);
  }
}
