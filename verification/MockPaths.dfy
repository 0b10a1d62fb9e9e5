/** Path patterns and paths by the segments they are written with, whatever slashes stand at their ends. */
module MockPaths {
  import opened Options
  import opened Seqs
  import opened JsText
  import opened MockOverlap
  import opened MockCoverage

  predicate Slashes(s: string) { forall c <- s :: c == '/' }

  lemma {:induction false} LeadingSlashesGo(slashes: string, rest: string)
    requires Slashes(slashes) && (rest == "" || rest[0] != '/')
    ensures StripLeading(slashes + rest) == rest
  {
    if slashes == "" {
      assert slashes + rest == rest;
    } else {
      assert slashes[0] in slashes && forall c <- slashes[1..] :: c in slashes;
      assert (slashes + rest)[1..] == slashes[1..] + rest;
      LeadingSlashesGo(slashes[1..], rest);
    }
  }

  lemma {:induction false} TrailingSlashesGo(rest: string, slashes: string)
    requires Slashes(slashes) && (rest == "" || Last(rest) != '/')
    ensures StripTrailing(rest + slashes) == rest
  {
    if slashes == "" {
      assert rest + slashes == rest;
    } else {
      assert Last(slashes) in slashes && forall c <- Front(slashes) :: c in slashes;
      assert Front(rest + slashes) == rest + Front(slashes);
      TrailingSlashesGo(rest, Front(slashes));
    }
  }

  lemma SlashesGo(before: string, core: string, after: string)
    requires Slashes(before) && Slashes(after) && Stripped(core)
    ensures Normalize(before + core + after) == core
  {
    if core == "" {
      assert before + core + after == (before + after) + "";
      assert forall c <- before + after :: c in before || c in after;
      LeadingSlashesGo(before + after, "");
    } else {
      assert before + core + after == before + (core + after);
      LeadingSlashesGo(before, core + after);
      TrailingSlashesGo(core, after);
    }
  }

  /** Segments as they can stand in a path: without slashes, and not empty at the ends unless there is only one. */
  predicate Writable(parts: seq<string>) {
    SolidEnds(parts) && forall part <- parts :: '/' !in part
  }

  lemma WrittenSegments(before: string, parts: seq<string>, after: string)
    requires Slashes(before) && Slashes(after) && Writable(parts)
    ensures Segments(before + Join(parts, "/") + after) == parts
  {
    JoinEnds(parts);
    SlashesGo(before, Join(parts, "/"), after);
    SolidIsReadBack(parts);
    StrippedStays(Join(parts, "/"));
  }

  /** The characters are the same, letters of either case. */
  predicate SameIgnoringCase(a: string, b: string) {
    |a| == |b| && forall i :: 0 <= i < |a| ==> a[i] == b[i] || SameLetter(a[i], b[i]) || SameLetter(b[i], a[i])
  }

  predicate SameLetter(small: char, large: char) {
    'a' <= small <= 'z' && large as int == small as int - 32
  }

  lemma LowerIff(a: string, b: string)
    ensures Lower(a) == Lower(b) <==> SameIgnoringCase(a, b)
  {
    if Lower(a) == Lower(b) {
      assert |a| == |Lower(a)| == |b|;
      forall i | 0 <= i < |a|
        ensures a[i] == b[i] || SameLetter(a[i], b[i]) || SameLetter(b[i], a[i])
      {
        assert Lower(a)[i] == Lower(b)[i];
      }
    }
  }

  /**
   A pattern matches a path exactly if they have as many segments and each segment of the pattern is a parameter or the
   segment of the path in any letter case, however many slashes stand at the ends of the two.
   */
  lemma {:induction false} PathMatchesIff(
    a: string, expected: seq<string>, b: string, c: string, actual: seq<string>, d: string
  )
    requires Slashes(a) && Slashes(b) && Slashes(c) && Slashes(d) && Writable(expected) && Writable(actual)
    ensures PathMatches(a + Join(expected, "/") + b, c + Join(actual, "/") + d) <==>
      && |expected| == |actual|
      && forall i :: 0 <= i < |expected| ==>
        (expected[i] != "" && expected[i][0] == ':') || SameIgnoringCase(expected[i], actual[i])
  {
    WrittenSegments(a, expected, b);
    WrittenSegments(c, actual, d);
    forall i | 0 <= i < |expected| == |actual|
      ensures Lower(expected[i]) == Lower(actual[i]) <==> SameIgnoringCase(expected[i], actual[i])
    {
      LowerIff(expected[i], actual[i]);
    }
  }
}
