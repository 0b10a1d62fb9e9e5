/** Names made safe for files, and made unique by a number. */
module Slugs {
  import opened Decimal
  import opened JsText
  import opened Seqs
  import opened Sets

  predicate SlugChar(c: char) { 'a' <= c <= 'z' || '0' <= c <= '9' }

  /** `s.replace(/[^a-z0-9]+/g, "-")`; `inRun` says that the run before `s` was already replaced. */
  function Collapse(s: string, inRun: bool): (r: string)
    ensures inRun && r != "" ==> r[0] != '-'
    ensures forall i :: 0 <= i < |r| ==> SlugChar(r[i]) || r[i] == '-'
    ensures forall i :: 0 <= i < |r| - 1 && r[i] == '-' ==> r[i + 1] != '-'
  {
    if s == "" then ""
    else if SlugChar(s[0]) then [s[0]] + Collapse(s[1..], false)
    else if inRun then Collapse(s[1..], true)
    else ['-'] + Collapse(s[1..], true)
  }

  /** `s.replace(/(^-|-$)/g, "")`. */
  function StripDashes(s: string): string {
    var t := if s != "" && s[0] == '-' then s[1..] else s;
    if t != "" && Last(t) == '-' then Front(t) else t
  }

  /** Lower-case letters, digits and single dashes between them. */
  predicate IsSlug(s: string) {
    && s != "" && s[0] != '-' && Last(s) != '-'
    && (forall i :: 0 <= i < |s| ==> SlugChar(s[i]) || s[i] == '-')
    && forall i :: 0 <= i < |s| - 1 && s[i] == '-' ==> s[i + 1] != '-'
  }

  function Slug(value: string): (r: string)
    ensures IsSlug(r)
  {
    var stripped := StripDashes(Collapse(Lower(value), false));
    if stripped == "" then "request" else stripped
  }

  // What a slug is made of: the runs of slug characters of the lower-cased value.

  function Runs(s: string): (runs: seq<string>)
    ensures s != "" && SlugChar(s[0]) ==> runs != []
    ensures forall i :: 0 <= i < |runs| ==> runs[i] != "" && SlugChar(runs[i][0])
  {
    if s == "" then []
    else if !SlugChar(s[0]) then Runs(s[1..])
    else if |s| > 1 && SlugChar(s[1]) then [[s[0]] + Runs(s[1..])[0]] + Runs(s[1..])[1..]
    else [[s[0]]] + Runs(s[1..])
  }

  /** The dash of the characters after the last run. */
  function Trail(s: string): string {
    if Runs(s) != [] && !SlugChar(Last(s)) then "-" else ""
  }

  function Joined(s: string): string {
    Join(Runs(s), "-") + Trail(s)
  }

  lemma JoinLonger(c: char, first: string, more: seq<string>)
    ensures Join([[c] + first] + more, "-") == [c] + Join([first] + more, "-")
  {
    assert ([[c] + first] + more)[1..] == more && ([first] + more)[1..] == more;
    if more != [] {
      assert ([c] + first) + "-" + Join(more, "-") == [c] + (first + "-" + Join(more, "-"));
    }
  }

  lemma TrailOfRest(s: string)
    requires |s| > 1
    ensures SlugChar(s[0]) && Runs(s[1..]) == [] ==> Trail(s) == "-"
    ensures Runs(s[1..]) != [] || !SlugChar(s[0]) ==> Trail(s) == Trail(s[1..])
  {
    RunsOfNone(s[1..]);
    assert Last(s) == Last(s[1..]);
  }

  lemma {:induction false} RunsOfNone(s: string)
    ensures Runs(s) == [] <==> forall c <- s :: !SlugChar(c)
  {
    if s != "" {
      RunsOfNone(s[1..]);
      assert s == [s[0]] + s[1..];
    }
  }

  lemma JoinedSameRun(s: string)
    requires |s| > 1 && SlugChar(s[0]) && SlugChar(s[1])
    ensures Joined(s) == [s[0]] + Joined(s[1..])
  {
    var runs := Runs(s[1..]);
    TrailOfRest(s);
    assert [runs[0]] + runs[1..] == runs;
    JoinLonger(s[0], runs[0], runs[1..]);
    ConcatAssociates([s[0]], Join(runs, "-"), Trail(s));
  }

  lemma JoinFirst(first: string, more: seq<string>)
    ensures Join([first] + more, "-") == if more == [] then first else first + "-" + Join(more, "-")
  {
    assert ([first] + more)[1..] == more;
  }

  lemma JoinedRunEnds(s: string)
    requires |s| > 1 && SlugChar(s[0]) && !SlugChar(s[1])
    ensures Joined(s) == [s[0]] + (['-'] + Joined(s[1..]))
  {
    var runs := Runs(s[1..]);
    TrailOfRest(s);
    JoinFirst([s[0]], runs);
    ConcatAssociates([s[0]] + ['-'], Join(runs, "-"), Trail(s));
    ConcatAssociates([s[0]], ['-'], Joined(s[1..]));
  }

  lemma JoinedLetter(s: string)
    requires s != "" && SlugChar(s[0])
    ensures Joined(s) == [s[0]]
      + (if |s| > 1 && !SlugChar(s[1]) then ['-'] + Joined(s[1..]) else Joined(s[1..]))
  {
    if |s| == 1 {
      JoinFirst([s[0]], []);
    } else if SlugChar(s[1]) {
      JoinedSameRun(s);
    } else {
      JoinedRunEnds(s);
    }
  }

  /** Collapsing joins the runs, with a dash before them if the text starts with another character. */
  lemma {:induction false} CollapseJoins(s: string, inRun: bool)
    ensures Collapse(s, inRun) == if s == "" || SlugChar(s[0]) || inRun then Joined(s) else ['-'] + Joined(s)
  {
    if s != "" {
      CollapseJoins(s[1..], !SlugChar(s[0]));
      if SlugChar(s[0]) {
        JoinedLetter(s);
      } else if |s| > 1 {
        TrailOfRest(s);
      }
    }
  }

  lemma {:induction false} JoinEnds(runs: seq<string>)
    requires runs != [] && forall i :: 0 <= i < |runs| ==> runs[i] != "" && forall c <- runs[i] :: SlugChar(c)
    ensures var joined := Join(runs, "-"); joined != "" && joined[0] != '-' && Last(joined) != '-'
  {
    assert runs[0][0] in runs[0];
    if |runs| > 1 {
      JoinEnds(runs[1..]);
    } else {
      assert Last(runs[0]) in runs[0];
    }
  }

  lemma {:induction false} RunsAreSlugChars(s: string)
    ensures forall i :: 0 <= i < |Runs(s)| ==> forall c <- Runs(s)[i] :: SlugChar(c)
  {
    if s != "" {
      RunsAreSlugChars(s[1..]);
    }
  }

  /** The slug is the runs of letters and digits of the lower-cased value with dashes between them. */
  lemma {:induction false} SlugJoinsRuns(value: string)
    ensures var runs := Runs(Lower(value)); Slug(value) == if runs == [] then "request" else Join(runs, "-")
  {
    var s := Lower(value);
    CollapseJoins(s, false);
    RunsAreSlugChars(s);
    if Runs(s) != [] {
      JoinEnds(Runs(s));
      StripJoined(Join(Runs(s), "-"), Trail(s));
    }
  }

  lemma StripJoined(joined: string, trail: string)
    requires joined != "" && joined[0] != '-' && Last(joined) != '-' && (trail == "" || trail == "-")
    ensures StripDashes(joined + trail) == joined && StripDashes(['-'] + (joined + trail)) == joined
  {
    assert (['-'] + (joined + trail))[1..] == joined + trail;
    if trail == "" {
      assert joined + trail == joined;
    } else {
      assert Front(joined + trail) == joined;
    }
  }

  lemma LowerSlug(s: string)
    requires forall i :: 0 <= i < |s| ==> SlugChar(s[i]) || s[i] == '-'
    ensures Lower(s) == s
  {
  }

  lemma {:induction false} NothingToCollapse(s: string, inRun: bool)
    requires forall i :: 0 <= i < |s| ==> SlugChar(s[i]) || s[i] == '-'
    requires forall i :: 0 <= i < |s| - 1 && s[i] == '-' ==> s[i + 1] != '-'
    requires inRun && s != "" ==> s[0] != '-'
    ensures Collapse(s, inRun) == s
  {
    if s != "" {
      var rest := s[1..];
      assert forall i :: 0 <= i < |rest| ==> rest[i] == s[i + 1];
      NothingToCollapse(rest, s[0] == '-');
      assert s == [s[0]] + rest;
    }
  }

  /** A slug is its own slug. */
  lemma {:induction false} SlugIsStable(s: string)
    requires IsSlug(s)
    ensures Slug(s) == s
  {
    LowerSlug(s);
    NothingToCollapse(s, false);
  }

  /** The names tried for a base: the base itself, then the base with 2, 3 and so on. */
  function Candidate(base: string, n: nat): string {
    if n <= 1 then base else base + "-" + NatToString(n)
  }

  lemma CandidatesDiffer(base: string, m: nat, n: nat)
    requires 1 <= m < n
    ensures Candidate(base, m) != Candidate(base, n)
  {
    if m > 1 && Candidate(base, m) == Candidate(base, n) {
      var k := |base| + 1;
      assert Candidate(base, m)[k..] == NatToString(m) && Candidate(base, n)[k..] == NatToString(n);
      NatToStringInjective(m, n);
    }
  }

  predicate SingleDashes(s: string) {
    forall i :: 0 <= i < |s| - 1 && s[i] == '-' ==> s[i + 1] != '-'
  }

  lemma DashesStaySingle(a: string, b: string)
    requires SingleDashes(a) && SingleDashes(b) && a != "" && Last(a) != '-'
    ensures SingleDashes(a + b)
  {
    var s := a + b;
    forall i | 0 <= i < |s| - 1 && s[i] == '-'
      ensures s[i + 1] != '-'
    {
      if i < |a| - 1 {
        assert a[i] == s[i] && a[i + 1] == s[i + 1];
      } else if i >= |a| {
        assert b[i - |a|] == s[i] && b[i - |a| + 1] == s[i + 1];
      }
    }
  }

  lemma NumberedIsSlug(base: string, digits: string)
    requires IsSlug(base) && digits != "" && forall i :: 0 <= i < |digits| ==> SlugChar(digits[i])
    ensures IsSlug(base + (['-'] + digits))
  {
    var tail := ['-'] + digits;
    assert forall i :: 0 <= i < |tail| ==> if i == 0 then tail[i] == '-' else SlugChar(tail[i]);
    assert SingleDashes(tail);
    DashesStaySingle(base, tail);
    assert Last(base + tail) == Last(digits);
  }

  lemma CandidateIsSlug(base: string, n: nat)
    requires IsSlug(base)
    ensures IsSlug(Candidate(base, n))
  {
    if n > 1 {
      NumberedIsSlug(base, NatToString(n));
      ConcatAssociates(base, "-", NatToString(n));
    }
  }

  /** The names tried so far, all different. */
  function Tried(base: string, n: nat): set<string> {
    if n == 0 then {} else Tried(base, n - 1) + {Candidate(base, n)}
  }

  lemma {:induction false} TriedAre(base: string, n: nat, m: nat)
    requires n < m && m >= 1
    ensures Candidate(base, m) !in Tried(base, n)
  {
    if n > 0 {
      TriedAre(base, n - 1, m);
      CandidatesDiffer(base, n, m);
    }
  }

  lemma TryNext(base: string, n: nat, used: set<string>)
    requires Tried(base, n) <= used && Candidate(base, n + 1) in used
    ensures Tried(base, n + 1) <= used && |used - Tried(base, n + 1)| < |used - Tried(base, n)|
  {
    TriedAre(base, n, n + 1);
    LessIsLeft(used, Tried(base, n), Tried(base, n + 1));
  }

  /** The n-th name of the base is the first that is not used. */
  predicate FirstFree(base: string, n: nat, used: set<string>) {
    n >= 1 && Candidate(base, n) !in used && Tried(base, n - 1) <= used
  }

  lemma {:induction false} TriedHolds(base: string, n: nat, m: nat)
    requires 1 <= m <= n
    ensures Candidate(base, m) in Tried(base, n)
  {
    if m < n {
      TriedHolds(base, n - 1, m);
    }
  }

  /** The first free name is a slug that nobody uses, and all the names before it are used. */
  lemma {:induction false} FirstFreeIsFresh(name: string, n: nat, used: set<string>)
    requires FirstFree(Slug(name), n, used)
    ensures var candidate := Candidate(Slug(name), n); candidate !in used && IsSlug(candidate)
    ensures forall m :: 1 <= m < n ==> Candidate(Slug(name), m) in used
  {
    CandidateIsSlug(Slug(name), n);
    forall m | 1 <= m < n
      ensures Candidate(Slug(name), m) in used
    {
      TriedHolds(Slug(name), n - 1, m);
    }
  }

  lemma FreeAfterTries(name: string, n: nat, used: set<string>)
    requires n >= 1 && Candidate(Slug(name), n) !in used && Tried(Slug(name), n - 1) <= used
    ensures FirstFree(Slug(name), n, used) && IsSlug(Candidate(Slug(name), n))
  {
    CandidateIsSlug(Slug(name), n);
  }

  /** The base itself if nobody uses it, and else the base with the least number from 2 on that nobody uses. */
  ghost predicate FirstLeft(base: string, used: set<string>, candidate: string) {
    if base !in used then candidate == base
    else exists k: nat :: NumberLeft(base, used, k) && candidate == base + "-" + NatToString(k)
  }

  predicate NumberLeft(base: string, used: set<string>, k: nat) {
    k >= 2 && base + "-" + NatToString(k) !in used && forall j: nat | 2 <= j < k :: base + "-" + NatToString(j) in used
  }

  lemma FirstFreeIsLeft(base: string, n: nat, used: set<string>)
    requires FirstFree(base, n, used)
    ensures FirstLeft(base, used, Candidate(base, n))
  {
    forall m | 1 <= m < n
      ensures Candidate(base, m) in used
    {
      TriedHolds(base, n - 1, m);
    }
    if n > 1 {
      assert Candidate(base, 1) == base;
      forall j: nat | 2 <= j < n
        ensures base + "-" + NatToString(j) in used
      {
        assert Candidate(base, j) in used;
      }
      assert NumberLeft(base, used, n);
    }
  }

  lemma OneNumberLeft(base: string, used: set<string>, k: nat, l: nat)
    requires NumberLeft(base, used, k) && NumberLeft(base, used, l)
    ensures k == l
  {
  }

  lemma FirstLeftIsUnique(base: string, used: set<string>, a: string, b: string)
    requires FirstLeft(base, used, a) && FirstLeft(base, used, b)
    ensures a == b
  {
    if base in used {
      var k: nat :| NumberLeft(base, used, k) && a == base + "-" + NatToString(k);
      var l: nat :| NumberLeft(base, used, l) && b == base + "-" + NatToString(l);
      OneNumberLeft(base, used, k, l);
    }
  }

  /** The first name of the base that is not used yet; the search always ends. */
  method UniqueSlug(name: string, used: set<string>) returns (candidate: string, next: set<string>)
    ensures exists n :: FirstFree(Slug(name), n, used) && candidate == Candidate(Slug(name), n)
    ensures FirstLeft(Slug(name), used, candidate)
    ensures candidate !in used && IsSlug(candidate) && next == used + {candidate}
  {
    var base := Slug(name);
    candidate := base;
    var index := 2;
    while candidate in used
      invariant index >= 2 && candidate == Candidate(base, index - 1) && Tried(base, index - 2) <= used
      decreases |used - Tried(base, index - 2)|
    {
      TryNext(base, index - 2, used);
      candidate := base + "-" + NatToString(index);
      index := index + 1;
    }
    FreeAfterTries(name, index - 1, used);
    FirstFreeIsLeft(base, index - 1, used);
    next := used + {candidate};
  }

  // The slug of a text read off its words.

  predicate LetterOrDigit(c: char) { 'a' <= c <= 'z' || 'A' <= c <= 'Z' || '0' <= c <= '9' }

  /** Some letters and digits. */
  predicate WordText(s: string) { s != "" && forall c <- s :: LetterOrDigit(c) }

  /** No letter and no digit. */
  predicate Gap(s: string) { forall c <- s :: !LetterOrDigit(c) }

  /** Words with gaps between them; only the outer gaps may be empty. */
  predicate Laid(gaps: seq<string>, words: seq<string>) {
    && |gaps| == |words| + 1
    && (forall gap <- gaps :: Gap(gap)) && (forall word <- words :: WordText(word))
    && forall i :: 0 < i < |words| ==> gaps[i] != ""
  }

  function LaidOut(gaps: seq<string>, words: seq<string>): string
    requires |gaps| == |words| + 1
  {
    if words == [] then gaps[0] else gaps[0] + (words[0] + LaidOut(gaps[1..], words[1..]))
  }

  function LowerAll(words: seq<string>): seq<string> {
    seq(|words|, i requires 0 <= i < |words| => Lower(words[i]))
  }

  lemma LowerConcat(a: string, b: string)
    ensures Lower(a + b) == Lower(a) + Lower(b)
  {
  }

  lemma LowerOfWord(s: string)
    ensures WordText(s) ==> Lower(s) != "" && forall c <- Lower(s) :: SlugChar(c)
    ensures Gap(s) ==> forall c <- Lower(s) :: !SlugChar(c)
  {
    forall i | 0 <= i < |s|
      ensures LetterOrDigit(s[i]) <==> SlugChar(Lower(s)[i])
    {
    }
    assert forall i :: 0 <= i < |s| ==> s[i] in s;
    assert forall c :: c in Lower(s) ==> exists i :: 0 <= i < |s| && Lower(s)[i] == c;
  }

  lemma {:induction false} GapHasNoRuns(gap: string, rest: string)
    requires forall c <- gap :: !SlugChar(c)
    ensures Runs(gap + rest) == Runs(rest)
  {
    if gap == "" {
      assert gap + rest == rest;
    } else {
      assert gap[0] in gap && (gap + rest)[1..] == gap[1..] + rest;
      assert forall c <- gap[1..] :: c in gap;
      GapHasNoRuns(gap[1..], rest);
    }
  }

  lemma {:induction false} WordIsARun(word: string, rest: string)
    requires word != "" && (forall c <- word :: SlugChar(c)) && (rest == "" || !SlugChar(rest[0]))
    ensures Runs(word + rest) == [word] + Runs(rest)
  {
    var s := word + rest;
    assert word[0] in word && s[0] == word[0] && s[1..] == word[1..] + rest;
    if |word| == 1 {
      assert s[1..] == rest && [s[0]] == word;
    } else {
      assert word[1] in word && forall c <- word[1..] :: c in word;
      WordIsARun(word[1..], rest);
      assert ([word[1..]] + Runs(rest))[1..] == Runs(rest);
      assert word == [word[0]] + word[1..];
    }
  }

  lemma RunsOfFirstWord(gap: string, word: string, rest: string)
    requires Gap(gap) && WordText(word) && (Lower(rest) == "" || !SlugChar(Lower(rest)[0]))
    ensures Runs(Lower(gap + (word + rest))) == [Lower(word)] + Runs(Lower(rest))
  {
    LowerOfWord(gap);
    LowerOfWord(word);
    LowerConcat(gap, word + rest);
    LowerConcat(word, rest);
    GapHasNoRuns(Lower(gap), Lower(word) + Lower(rest));
    WordIsARun(Lower(word), Lower(rest));
  }

  lemma {:induction false} RunsOfLaidOut(gaps: seq<string>, words: seq<string>)
    requires Laid(gaps, words)
    ensures Runs(Lower(LaidOut(gaps, words))) == LowerAll(words)
    decreases |words|
  {
    assert gaps[0] in gaps;
    if words == [] {
      LowerOfWord(gaps[0]);
      GapHasNoRuns(Lower(gaps[0]), "");
      assert Lower(gaps[0]) + "" == Lower(gaps[0]);
    } else {
      var rest := LaidOut(gaps[1..], words[1..]);
      assert words[0] in words && forall w <- words[1..] :: w in words;
      assert forall g <- gaps[1..] :: g in gaps;
      RunsOfLaidOut(gaps[1..], words[1..]);
      RestStartsWithGap(gaps, words);
      RunsOfFirstWord(gaps[0], words[0], rest);
      assert LowerAll(words) == [Lower(words[0])] + LowerAll(words[1..]);
    }
  }

  lemma RestStartsWithGap(gaps: seq<string>, words: seq<string>)
    requires Laid(gaps, words) && words != []
    ensures var rest := Lower(LaidOut(gaps[1..], words[1..])); rest == "" || !SlugChar(rest[0])
  {
    var text := LaidOut(gaps[1..], words[1..]);
    assert gaps[1] in gaps;
    if gaps[1] != "" {
      assert text[0] == gaps[1][0] && gaps[1][0] in gaps[1];
    }
  }

  /** The slug of a text is its words in lower case with single dashes between them, or `request` without any. */
  lemma {:induction false} WordsMakeTheSlug(gaps: seq<string>, words: seq<string>)
    requires Laid(gaps, words)
    ensures Slug(LaidOut(gaps, words)) == if words == [] then "request" else Join(LowerAll(words), "-")
  {
    SlugJoinsRuns(LaidOut(gaps, words));
    RunsOfLaidOut(gaps, words);
  }
}
