/** The JavaScript string operations the modelled code relies on, over sequences of characters. */
module JsText {
  import opened Options
  import opened Seqs

  /** `\s` and what `trim` removes: white space and line terminators. */
  predicate IsSpace(c: char) {
    || c == ' '
    || '\U{0009}' <= c <= '\U{000D}'
    || c == '\U{00A0}' || c == '\U{1680}'
    || '\U{2000}' <= c <= '\U{200A}'
    || c == '\U{2028}' || c == '\U{2029}' || c == '\U{202F}' || c == '\U{205F}'
    || c == '\U{3000}' || c == '\U{FEFF}'
  }

  function TrimStart(s: string): (r: string)
    ensures r == [] || !IsSpace(r[0])
    ensures |r| <= |s| && r == s[|s| - |r|..]
  {
    if s != [] && IsSpace(s[0]) then TrimStart(s[1..]) else s
  }

  function TrimEnd(s: string): (r: string)
    ensures r == [] || !IsSpace(r[|r| - 1])
    ensures |r| <= |s| && r == s[..|r|]
    ensures s != [] && !IsSpace(s[0]) ==> r != []
  {
    if s != [] && IsSpace(s[|s| - 1]) then TrimEnd(s[..|s| - 1]) else s
  }

  function Trim(s: string): (r: string)
    ensures r != [] ==> !IsSpace(r[0]) && !IsSpace(r[|r| - 1])
  {
    TrimEnd(TrimStart(s))
  }

  /** `!s.trim()`. */
  predicate Blank(s: string) { forall c <- s :: IsSpace(c) }

  /** No white space at either end: `s.trim() === s`. */
  predicate Trimmed(s: string) { s != "" ==> !IsSpace(s[0]) && !IsSpace(s[|s| - 1]) }

  lemma TrimmedIsTrim(s: string)
    ensures Trimmed(s) <==> Trim(s) == s
  {
  }

  lemma {:induction false} TrimStartAfter(before: string, rest: string)
    requires Blank(before) && (rest == "" || !IsSpace(rest[0]))
    ensures TrimStart(before + rest) == rest
  {
    if before == "" {
      assert before + rest == rest;
    } else {
      assert before[0] in before && forall c <- before[1..] :: c in before;
      assert (before + rest)[1..] == before[1..] + rest;
      TrimStartAfter(before[1..], rest);
    }
  }

  lemma {:induction false} TrimEndBefore(rest: string, after: string)
    requires Blank(after) && (rest == "" || !IsSpace(Last(rest)))
    ensures TrimEnd(rest + after) == rest
  {
    if after == "" {
      assert rest + after == rest;
    } else {
      assert Last(after) in after && forall c <- Front(after) :: c in after;
      assert Front(rest + after) == rest + Front(after);
      TrimEndBefore(rest, Front(after));
    }
  }

  /** What is left is the text between the white space at its ends. */
  lemma {:induction false} TrimCuts(before: string, core: string, after: string)
    requires Blank(before) && Blank(after) && Trimmed(core)
    ensures Trim(before + core + after) == core
  {
    if core == "" {
      assert before + core + after == (before + after) + "";
      assert forall c <- before + after :: c in before || c in after;
      TrimStartAfter(before + after, "");
    } else {
      assert before + core + after == before + (core + after);
      TrimStartAfter(before, core + after);
      TrimEndBefore(core, after);
    }
  }

  predicate StartsWith(s: string, prefix: string) { |prefix| <= |s| && s[..|prefix|] == prefix }

  lemma TrimAfterSpace(s: string)
    ensures TrimStart([' '] + s) == TrimStart(s) && Trim([' '] + s) == Trim(s)
  {
    assert ([' '] + s)[1..] == s;
  }

  // Searching, splitting and joining.

  predicate OccursAt(s: string, part: string, i: int) {
    0 <= i <= |s| - |part| && s[i..i + |part|] == part
  }

  /** `s.indexOf(part)`. */
  function Find(s: string, part: string): (r: int)
    requires part != ""
    ensures -1 <= r < |s|
    ensures r >= 0 ==> OccursAt(s, part, r)
  {
    if |s| < |part| then -1
    else if s[..|part|] == part then 0
    else
      var rest := Find(s[1..], part);
      assert rest >= 0 ==> s[1..][rest..rest + |part|] == s[rest + 1..rest + 1 + |part|];
      if rest < 0 then -1 else rest + 1
  }

  /** There is no occurrence before the one found. */
  lemma {:induction false} FindIsFirst(s: string, part: string)
    requires part != ""
    ensures forall i :: 0 <= i && (Find(s, part) < 0 || i < Find(s, part)) ==> !OccursAt(s, part, i)
  {
    if |s| >= |part| && s[..|part|] != part {
      FindIsFirst(s[1..], part);
      forall i | 0 < i && OccursAt(s, part, i)
        ensures OccursAt(s[1..], part, i - 1)
      {
        assert s[1..][i - 1..i - 1 + |part|] == s[i..i + |part|];
      }
    }
  }

  lemma FindChar(s: string, c: char)
    ensures var n := Find(s, [c]);
      && (n >= 0 ==> s[n] == c)
      && forall i :: 0 <= i < |s| && (n < 0 || i < n) ==> s[i] != c
  {
    var n := Find(s, [c]);
    FindIsFirst(s, [c]);
    forall i | 0 <= i < |s|
      ensures OccursAt(s, [c], i) <==> s[i] == c
    {
      assert s[i..i + 1] == [s[i]];
    }
  }

  /** `s.split(separator)`. */
  function Split(s: string, separator: string): (parts: seq<string>)
    requires separator != ""
    ensures parts != []
    decreases |s|
  {
    var i := Find(s, separator);
    if i < 0 then [s] else [s[..i]] + Split(s[i + |separator|..], separator)
  }

  function Join(parts: seq<string>, separator: string): string {
    if parts == [] then ""
    else if |parts| == 1 then parts[0]
    else parts[0] + separator + Join(parts[1..], separator)
  }

  function Concat(parts: seq<string>): string {
    if parts == [] then "" else parts[0] + Concat(parts[1..])
  }

  /** The first occurrence is the one a block without the separator is followed by. */
  lemma FindAfter(block: string, separator: string, rest: string)
    requires separator != ""
    requires forall i :: 0 <= i < |block| ==> !OccursAt(block + separator, separator, i)
    ensures Find(block + separator + rest, separator) == |block|
  {
    FindIsFirst(block + separator + rest, separator);
    var head := block + separator;
    var s := head + rest;
    assert s[|block|..|head|] == separator;
    assert OccursAt(s, separator, |block|);
    forall i | 0 <= i < |block|
      ensures !OccursAt(s, separator, i)
    {
      assert !OccursAt(head, separator, i);
      assert s[i..i + |separator|] == head[i..i + |separator|];
    }
  }

  lemma SplitFirst(block: string, separator: string, rest: string)
    requires separator != ""
    requires forall i :: 0 <= i < |block| ==> !OccursAt(block + separator, separator, i)
    ensures Split(block + separator + rest, separator) == [block] + Split(rest, separator)
  {
    var s := block + separator + rest;
    FindAfter(block, separator, rest);
    assert s[..|block|] == block && s[|block| + |separator|..] == rest;
  }

  /** A character that the text before it does not contain is found right there. */
  lemma FindCharAfter(block: string, c: char, rest: string)
    requires c !in block
    ensures Find(block + [c] + rest, [c]) == |block|
  {
    var s := block + [c] + rest;
    FindChar(s, c);
    assert s[|block|] == c && forall i :: 0 <= i < |block| ==> s[i] == block[i];
  }

  lemma SplitFirstChar(block: string, c: char, rest: string)
    requires c !in block
    ensures Split(block + [c] + rest, [c]) == [block] + Split(rest, [c])
  {
    var s := block + [c] + rest;
    FindCharAfter(block, c, rest);
    assert s[..|block|] == block && s[|block| + 1..] == rest;
  }

  predicate NothingBefore(head: string, separator: string) {
    forall i :: 0 <= i < |head| ==> !OccursAt(head + separator, separator, i)
  }

  lemma SamePart(s: string, part: string, k: nat, j: nat)
    requires k <= |s| && j <= k - |part|
    ensures OccursAt(s[..k], part, j) == OccursAt(s, part, j)
  {
    assert s[..k][j..j + |part|] == s[j..j + |part|];
  }

  lemma NothingBeforeFirst(s: string, separator: string)
    requires separator != "" && Find(s, separator) >= 0
    ensures NothingBefore(s[..Find(s, separator)], separator)
  {
    var i, n := Find(s, separator), |separator|;
    FindIsFirst(s, separator);
    var head := s[..i];
    forall j | 0 <= j < |head|
      ensures !OccursAt(head + separator, separator, j)
    {
      assert !OccursAt(s, separator, j);
      assert head + separator == s[..i + n];
      SamePart(s, separator, i + n, j);
    }
  }

  /** A text in which the separator occurs is what comes before it, the separator and the rest. */
  lemma CutAtFirst(s: string, separator: string) returns (head: string, tail: string)
    requires separator != "" && Find(s, separator) >= 0
    ensures s == head + separator + tail && NothingBefore(head, separator)
    ensures Split(s, separator) == [head] + Split(tail, separator)
  {
    var i, n := Find(s, separator), |separator|;
    head, tail := s[..i], s[i + n..];
    NothingBeforeFirst(s, separator);
    assert s[i..i + n] == separator;
    assert s == s[..i] + s[i..i + n] + s[i + n..];
  }

  /** What follows the first separator is split on its own. */
  lemma SplitLonger(head: string, separator: string, tail: string, more: string)
    requires separator != "" && NothingBefore(head, separator)
    ensures Split((head + separator + tail) + more, separator) == [head] + Split(tail + more, separator)
  {
    SplitFirst(head, separator, tail + more);
    assert (head + separator + tail) + more == head + separator + (tail + more);
  }

  lemma PartBefore<T>(first: T, parts: seq<T>, more: seq<T>)
    requires parts != []
    ensures Last([first] + parts) == Last(parts)
    ensures Front([first] + parts) + more == [first] + (Front(parts) + more)
  {
    assert Front([first] + parts) == [first] + Front(parts);
  }

  /** The unfinished last part with more text after it takes the place of the last part. */
  predicate Resumes(parts: seq<string>, whole: seq<string>, more: string, separator: string)
    requires separator != "" && parts != []
  {
    whole == Front(parts) + Split(Last(parts) + more, separator)
  }

  lemma ResumesLater(first: string, parts: seq<string>, whole: seq<string>, more: string, separator: string)
    requires separator != "" && parts != [] && Resumes(parts, whole, more, separator)
    ensures Resumes([first] + parts, [first] + whole, more, separator)
  {
    PartBefore(first, parts, Split(Last(parts) + more, separator));
  }

  /** Splitting can be suspended anywhere and resumed from the last part. */
  lemma {:induction false} SplitResumes(a: string, b: string, separator: string)
    requires separator != ""
    ensures Resumes(Split(a, separator), Split(a + b, separator), b, separator)
    decreases |a|
  {
    if Find(a, separator) >= 0 {
      var head, tail := CutAtFirst(a, separator);
      SplitLonger(head, separator, tail, b);
      SplitResumes(tail, b, separator);
      ResumesLater(head, Split(tail, separator), Split(tail + b, separator), b, separator);
    } else {
      UnsplitResumes(a, b, separator);
    }
  }

  lemma UnsplitResumes(a: string, b: string, separator: string)
    requires separator != ""
    ensures Resumes([a], Split(a + b, separator), b, separator)
  {
    assert Front([a]) == [] && [] + Split(a + b, separator) == Split(a + b, separator);
  }

  /** A carry buffer: the parts split off so far and the unfinished last part stay a split of everything received. */
  lemma SplitCarry(received: string, chunk: string, separator: string, seen: seq<string>, buffer: string)
    requires separator != "" && Split(received, separator) == seen + [buffer]
    ensures var parts := Split(buffer + chunk, separator);
      Split(received + chunk, separator) == (seen + Front(parts)) + [Last(parts)]
  {
    SplitResumes(received, chunk, separator);
    CarryOn(seen, buffer, Split(buffer + chunk, separator));
  }

  lemma CarryOn<T>(seen: seq<T>, buffer: T, parts: seq<T>)
    requires parts != []
    ensures Front(seen + [buffer]) == seen && Last(seen + [buffer]) == buffer
    ensures seen + parts == (seen + Front(parts)) + [Last(parts)]
  {
  }

  lemma {:induction false} ConcatAppend(parts: seq<string>, i: nat)
    requires i < |parts|
    ensures Concat(parts[..i + 1]) == Concat(parts[..i]) + parts[i]
  {
    assert parts[..i + 1][1..] == parts[1..][..i];
    if i > 0 {
      assert parts[..i][1..] == parts[1..][..i - 1];
      ConcatAppend(parts[1..], i - 1);
    }
  }

  /** `split(/\r?\n/)`. */
  function SplitLines(text: string): seq<string> {
    var parts := Split(text, "\n");
    seq(|parts|, i requires 0 <= i < |parts| =>
      if i < |parts| - 1 && parts[i] != "" && Last(parts[i]) == '\r' then Front(parts[i]) else parts[i])
  }

  predicate OneLine(s: string) { '\n' !in s }

  lemma SplitOneLine(line: string)
    requires OneLine(line)
    ensures Split(line, "\n") == [line]
  {
    FindChar(line, '\n');
  }

  /** Joining with a separator that no part contains can be undone. */
  lemma {:induction false} SplitJoined(parts: seq<string>, c: char)
    requires parts != [] && forall p <- parts :: c !in p
    ensures Split(Join(parts, [c]), [c]) == parts
  {
    var head := parts[0];
    assert head in parts && forall p <- parts[1..] :: p in parts;
    if |parts| == 1 {
      FindChar(head, c);
    } else {
      SplitFirstChar(head, c, Join(parts[1..], [c]));
      SplitJoined(parts[1..], c);
    }
  }

  lemma {:induction false} SplitParts(s: string, c: char)
    ensures forall p <- Split(s, [c]) :: c !in p
    decreases |s|
  {
    var i := Find(s, [c]);
    FindChar(s, c);
    if i >= 0 {
      SplitParts(s[i + 1..], c);
    }
  }

  lemma SplitJoinedLines(lines: seq<string>)
    requires lines != [] && forall l <- lines :: OneLine(l)
    ensures Split(Join(lines, "\n"), "\n") == lines
  {
    SplitJoined(lines, '\n');
  }

  /** `s.replace(/\\x/g, to)`: every backslash directly before the letter, from the left. */
  function Unescape(s: string, letter: char, to: char): string {
    if s == "" then ""
    else if |s| > 1 && s[0] == '\\' && s[1] == letter then [to] + Unescape(s[2..], letter, to)
    else [s[0]] + Unescape(s[1..], letter, to)
  }

  lemma {:induction false} UnescapeKeeps(s: string, letter: char, to: char)
    requires forall i :: 0 <= i < |s| - 1 && s[i] == '\\' ==> s[i + 1] != letter
    ensures Unescape(s, letter, to) == s
  {
    if s != "" {
      var rest := s[1..];
      assert forall i :: 0 <= i < |rest| ==> rest[i] == s[i + 1];
      UnescapeKeeps(rest, letter, to);
      assert s == [s[0]] + rest;
    }
  }

  // Letter case, of the ASCII letters.

  function UpperChar(c: char): char { if 'a' <= c <= 'z' then c - 'a' + 'A' else c }

  function LowerChar(c: char): char { if 'A' <= c <= 'Z' then c - 'A' + 'a' else c }

  /** `s.toUpperCase()`. */
  function Upper(s: string): (r: string)
    ensures |r| == |s|
    ensures forall i :: 0 <= i < |s| ==> r[i] as int == s[i] as int - if 'a' <= s[i] <= 'z' then 32 else 0
  {
    seq(|s|, i requires 0 <= i < |s| => UpperChar(s[i]))
  }

  /** `s.toLowerCase()`. */
  function Lower(s: string): (r: string)
    ensures |r| == |s|
    ensures forall i :: 0 <= i < |s| ==> r[i] as int == s[i] as int + if 'A' <= s[i] <= 'Z' then 32 else 0
  {
    seq(|s|, i requires 0 <= i < |s| => LowerChar(s[i]))
  }
}
