/** The comparison of two responses: bodies as JSON when both parse and by lines otherwise, headers, status. */
module ResponseDiff {
  import opened Decimal
  import opened Options
  import opened Seqs
  import opened JsText
  import opened JsonDiff

  datatype Header = Header(key: string, value: string)

  datatype Response = Response(status: int, statusText: string, headers: seq<Header>, body: string)

  /** `JSON.parse`, the lower-casing of header names, and the paths the caller ignores. */
  datatype Settings = Settings(parse: string -> Option<Json>, lower: string -> string, ignorePaths: seq<string>)

  /** A path as the source prints it: `body.items[0]`, and `line 1` for the first line of a text. */
  function Render(path: Path): string {
    if path == [] then ""
    else if |path| == 1 then
      match path[0]
      case Index(i) => "line " + NatToString(i + 1)
      case Key(k) => k
    else
      Render(Front(path)) +
      match Last(path)
      case Index(i) => "[" + NatToString(i) + "]"
      case Key(k) => "." + k
  }

  /** `shouldIgnore`: the path itself, and what is printed below it. */
  predicate Covered(ignored: string, path: string) {
    path == ignored || StartsWith(path, ignored + ".") || StartsWith(path, ignored + "[")
  }

  predicate ShouldIgnore(settings: Settings, path: Path) {
    exists i :: 0 <= i < |settings.ignorePaths| && Covered(settings.ignorePaths[i], Render(path))
  }

  /** The text goes on after a start, and with this. */
  ghost predicate GoesOn(path: string, start: string, next: string) {
    exists rest :: path == start + next + rest
  }

  lemma GoesOnIff(path: string, start: string, next: string)
    ensures StartsWith(path, start + next) <==> GoesOn(path, start, next)
  {
    if StartsWith(path, start + next) {
      assert path == (start + next) + path[|start + next|..];
    }
    if rest :| path == start + next + rest {
      assert (start + next + rest)[..|start + next|] == start + next;
    }
  }

  /** A path is ignored if it is printed as one of the ignored ones, or goes on after one with a field or an item. */
  lemma {:induction false} IgnoredIff(settings: Settings, path: Path)
    ensures ShouldIgnore(settings, path) <==>
      exists i :: 0 <= i < |settings.ignorePaths|
        && (Render(path) == settings.ignorePaths[i]
            || GoesOn(Render(path), settings.ignorePaths[i], ".") || GoesOn(Render(path), settings.ignorePaths[i], "["))
  {
    forall i | 0 <= i < |settings.ignorePaths|
      ensures Covered(settings.ignorePaths[i], Render(path)) <==>
        Render(path) == settings.ignorePaths[i]
        || GoesOn(Render(path), settings.ignorePaths[i], ".") || GoesOn(Render(path), settings.ignorePaths[i], "[")
    {
      GoesOnIff(Render(path), settings.ignorePaths[i], ".");
      GoesOnIff(Render(path), settings.ignorePaths[i], "[");
    }
  }

  /** A field and an item are printed after what they are in, a top field alone, a line of text by its number. */
  lemma {:induction false} PathsArePrinted(path: Path, key: string, i: nat)
    ensures Render([Key(key)]) == key && Render([Index(i)]) == "line " + NatToString(i + 1)
    ensures path != [] ==> Render(path + [Key(key)]) == Render(path) + "." + key
    ensures path != [] ==> Render(path + [Index(i)]) == Render(path) + "[" + NatToString(i) + "]"
  {
    assert Front(path + [Key(key)]) == path && Front(path + [Index(i)]) == path;
  }

  lemma StaysCovered(ignored: string, path: string, more: string)
    requires Covered(ignored, path) && more != "" && (more[0] == '.' || more[0] == '[')
    ensures Covered(ignored, path + more)
  {
    if path == ignored {
      assert (path + more)[..|ignored| + 1] == ignored + [more[0]];
    } else {
      assert (path + more)[..|ignored| + 1] == path[..|ignored| + 1];
    }
  }

  lemma {:induction false} BelowIsCovered(path: Path, more: Path)
    requires path != []
    ensures Covered(Render(path), Render(path + more))
  {
    if more == [] {
      assert path + more == path;
    } else {
      BelowIsCovered(path, Front(more));
      assert Front(path + more) == path + Front(more) && Last(path + more) == Last(more);
      var end := Render(path + more)[|Render(path + Front(more))|..];
      StaysCovered(Render(path), Render(path + Front(more)), end);
      assert Render(path + more) == Render(path + Front(more)) + end;
    }
  }

  /** Whoever ignores a path ignores everything below it. */
  lemma {:induction false} IgnoredBelow(settings: Settings, path: Path, more: Path)
    requires path != [] && Render(path) in settings.ignorePaths
    ensures ShouldIgnore(settings, path + more)
  {
    var i :| 0 <= i < |settings.ignorePaths| && settings.ignorePaths[i] == Render(path);
    BelowIsCovered(path, more);
  }

  function Texts(lines: seq<string>): seq<Json> {
    seq(|lines|, i requires 0 <= i < |lines| => Text(lines[i]))
  }

  /** What the comparison says about line `i`. */
  function LineChange(a: seq<string>, b: seq<string>, i: nat): seq<Change>
    requires i < |a| || i < |b|
  {
    if i >= |a| then [Add([Index(i)], Text(b[i]))]
    else if i >= |b| then [Remove([Index(i)], Text(a[i]))]
    else if a[i] == b[i] then []
    else [Replace([Index(i)], Text(a[i]), Text(b[i]))]
  }

  function LineChanges(a: seq<string>, b: seq<string>, i: nat): seq<Change>
    decreases |a| + |b| - i
  {
    if i >= |a| && i >= |b| then [] else LineChange(a, b, i) + LineChanges(a, b, i + 1)
  }

  lemma {:induction false} LinesAreItems(a: seq<string>, b: seq<string>, i: nat)
    ensures LineChanges(a, b, i) == CompareItems(Texts(a), Texts(b), [], i)
    decreases |a| + |b| - i
  {
    if i < |a| || i < |b| {
      assert [] + [Index(i)] == [Index(i)];
      LinesAreItems(a, b, i + 1);
    }
  }

  /** `compareText`: the lines of both texts, one by one. It reports what the JSON comparison of the lines would. */
  method CompareText(left: string, right: string) returns (changes: seq<Change>)
    ensures changes == Compare(Array(Texts(SplitLines(left))), Array(Texts(SplitLines(right))), [])
  {
    var a, b := SplitLines(left), SplitLines(right);
    changes := CompareLines(a, b);
    LinesAreItems(a, b, 0);
    EqualTextsNoChanges(Texts(a), Texts(b), 0);
  }

  lemma OneMoreLine(a: seq<string>, b: seq<string>, i: nat, done: seq<Change>)
    requires i < |a| || i < |b|
    ensures done + LineChanges(a, b, i) == (done + LineChange(a, b, i)) + LineChanges(a, b, i + 1)
  {
    ConcatAssociates(done, LineChange(a, b, i), LineChanges(a, b, i + 1));
  }

  method CompareLines(a: seq<string>, b: seq<string>) returns (changes: seq<Change>)
    ensures changes == LineChanges(a, b, 0)
  {
    var length := if |a| < |b| then |b| else |a|;
    changes := [];
    var i := 0;
    while i < length
      invariant 0 <= i <= length
      invariant LineChanges(a, b, 0) == changes + LineChanges(a, b, i)
    {
      OneMoreLine(a, b, i, changes);
      var more := CompareLine(a, b, i);
      changes := changes + more;
      i := i + 1;
    }
    assert LineChanges(a, b, i) == [];
  }

  method CompareLine(a: seq<string>, b: seq<string>, i: nat) returns (changes: seq<Change>)
    requires i < |a| || i < |b|
    ensures changes == LineChange(a, b, i)
  {
    changes := [];
    if i >= |a| {
      changes := [Add([Index(i)], Text(b[i]))];
    } else if i >= |b| {
      changes := [Remove([Index(i)], Text(a[i]))];
    } else if a[i] != b[i] {
      changes := [Replace([Index(i)], Text(a[i]), Text(b[i]))];
    }
  }

  lemma {:induction false} EqualTextsNoChanges(x: seq<Json>, y: seq<Json>, i: nat)
    ensures x == y ==> CompareItems(x, y, [], i) == []
    decreases Longer(x, y) - i
  {
    if i < Longer(x, y) {
      EqualTextsNoChanges(x, y, i + 1);
    }
  }

  /** `Object.fromEntries` over lower-cased names: a later header replaces the value of an earlier one. */
  function HeadersToObject(headers: seq<Header>, lower: string -> string): (fields: seq<Field>)
    ensures WellFormed(Object(fields))
  {
    if headers == [] then []
    else
      var before, last := HeadersToObject(Front(headers), lower), Last(headers);
      var i := Position(before, lower(last.key));
      if i < 0 then before + [Field(lower(last.key), Text(last.value))]
      else before[i := Field(before[i].key, Text(last.value))]
  }

  predicate Named(h: Header, lower: string -> string, k: string) { lower(h.key) == k }

  lemma FieldSet(fields: seq<Field>, k: string, v: Json, other: string)
    ensures var i := Position(fields, k);
      FieldValue(if i < 0 then fields + [Field(k, v)] else fields[i := Field(fields[i].key, v)], other)
      == if other == k then Some(v) else FieldValue(fields, other)
  {
    var i := Position(fields, k);
    if i < 0 {
      PositionAppended(fields, [Field(k, v)], other);
    } else {
      PositionKept(fields, i, v, other);
    }
  }

  predicate AnyNamed(headers: seq<Header>, lower: string -> string, k: string) {
    exists i :: 0 <= i < |headers| && Named(headers[i], lower, k)
  }

  lemma AnyNamedSplits(headers: seq<Header>, lower: string -> string, k: string)
    requires headers != []
    ensures AnyNamed(headers, lower, k) <==> AnyNamed(Front(headers), lower, k) || Named(Last(headers), lower, k)
  {
    if AnyNamed(Front(headers), lower, k) {
      var i :| 0 <= i < |Front(headers)| && Named(Front(headers)[i], lower, k);
      assert Named(headers[i], lower, k);
    }
    if AnyNamed(headers, lower, k) {
      var i :| 0 <= i < |headers| && Named(headers[i], lower, k);
      assert i < |headers| - 1 ==> Named(Front(headers)[i], lower, k);
    }
  }

  /** Exactly the names of headers are there. */
  lemma {:induction false} HeaderNamesAreKeys(headers: seq<Header>, lower: string -> string, k: string)
    ensures FieldValue(HeadersToObject(headers, lower), k).Some? <==> AnyNamed(headers, lower, k)
  {
    if headers != [] {
      var last := Last(headers);
      HeaderNamesAreKeys(Front(headers), lower, k);
      FieldSet(HeadersToObject(Front(headers), lower), lower(last.key), Text(last.value), k);
      AnyNamedSplits(headers, lower, k);
    }
  }

  /** A name has the value of its last header. */
  lemma {:induction false} LastHeaderWins(headers: seq<Header>, lower: string -> string, i: nat)
    requires i < |headers|
    requires forall j :: i < j < |headers| ==> lower(headers[j].key) != lower(headers[i].key)
    ensures FieldValue(HeadersToObject(headers, lower), lower(headers[i].key)) == Some(Text(headers[i].value))
  {
    var last := Last(headers);
    FieldSet(HeadersToObject(Front(headers), lower), lower(last.key), Text(last.value), lower(headers[i].key));
    if i < |headers| - 1 {
      LastHeaderWins(Front(headers), lower, i);
    }
  }

  function BodyChanges(settings: Settings, left: string, right: string): seq<Change> {
    var l, r := settings.parse(left), settings.parse(right);
    if l.Some? && r.Some? then Compare(l.value, r.value, [Key("body")])
    else Compare(Array(Texts(SplitLines(left))), Array(Texts(SplitLines(right))), [])
  }

  function HeaderChanges(settings: Settings, left: Response, right: Response): seq<Change> {
    Compare(
      Object(HeadersToObject(left.headers, settings.lower)), Object(HeadersToObject(right.headers, settings.lower)),
      [Key("headers")])
  }

  function StatusChanges(left: Response, right: Response): seq<Change> {
    (if left.status != right.status then
       [Replace([Key("status")], Number(left.status as real), Number(right.status as real))] else [])
    + (if left.statusText != right.statusText then
         [Replace([Key("statusText")], Text(left.statusText), Text(right.statusText))] else [])
  }

  function Kept(settings: Settings, changes: seq<Change>): seq<Change> {
    if changes == [] then []
    else (if ShouldIgnore(settings, changes[0].path) then [] else [changes[0]]) + Kept(settings, changes[1..])
  }

  /** The places in a list of changes where one of a kind stands. */
  function Places(changes: seq<Change>, kind: Change -> bool): set<nat> {
    set i: nat | i < |changes| && kind(changes[i])
  }

  lemma {:induction false} CountIsPlaces(changes: seq<Change>, n: nat, kind: Change -> bool)
    requires n <= |changes|
    ensures Count(changes[..n], kind) == |Places(changes[..n], kind)|
  {
    if n > 0 {
      CountIsPlaces(changes, n - 1, kind);
      CountAppend(changes[..n - 1], changes[n - 1], kind);
      assert changes[..n] == changes[..n - 1] + [changes[n - 1]];
      assert Places(changes[..n], kind)
          == Places(changes[..n - 1], kind) + if kind(changes[n - 1]) then {n - 1} else {};
    }
  }

  lemma {:induction false} CountAppend(changes: seq<Change>, c: Change, kind: Change -> bool)
    ensures Count(changes + [c], kind) == Count(changes, kind) + if kind(c) then 1 else 0
  {
    if changes == [] {
      assert [] + [c] == [c] && [c][1..] == [];
    } else {
      assert (changes + [c])[1..] == changes[1..] + [c];
      CountAppend(changes[1..], c, kind);
    }
  }

  /** The summary counts the places of additions, of removals and of replacements, which are all places. */
  predicate Counts(changes: seq<Change>, summary: Summary) {
    && summary.additions == |set i: nat | i < |changes| && changes[i].Add?|
    && summary.deletions == |set i: nat | i < |changes| && changes[i].Remove?|
    && summary.changes == |set i: nat | i < |changes| && changes[i].Replace?|
    && summary.additions + summary.deletions + summary.changes == |changes|
  }

  lemma KindCount(changes: seq<Change>, kind: Change -> bool)
    ensures Count(changes, kind) == |Places(changes, kind)|
  {
    CountIsPlaces(changes, |changes|, kind);
    assert changes[..|changes|] == changes;
  }

  lemma {:induction false} KindsAreAll(changes: seq<Change>)
    ensures Count(changes, (c: Change) => c.Add?) + Count(changes, (c: Change) => c.Remove?)
          + Count(changes, (c: Change) => c.Replace?) == |changes|
  {
    if changes != [] {
      KindsAreAll(changes[1..]);
    }
  }

  lemma {:induction false} SummaryCounts(changes: seq<Change>)
    ensures Counts(changes, Summarize(changes))
  {
    KindCount(changes, (c: Change) => c.Add?);
    KindCount(changes, (c: Change) => c.Remove?);
    KindCount(changes, (c: Change) => c.Replace?);
    KindsAreAll(changes);
    assert Places(changes, (c: Change) => c.Add?) == set i: nat | i < |changes| && changes[i].Add?;
    assert Places(changes, (c: Change) => c.Remove?) == set i: nat | i < |changes| && changes[i].Remove?;
    assert Places(changes, (c: Change) => c.Replace?) == set i: nat | i < |changes| && changes[i].Replace?;
  }

  method CompareResponses(settings: Settings, left: Response, right: Response)
    returns (changes: seq<Change>, summary: Summary, jsonMode: bool)
    ensures changes ==
      Kept(settings, BodyChanges(settings, left.body, right.body) + HeaderChanges(settings, left, right)
                     + StatusChanges(left, right))
    ensures summary.additions == |set i: nat | i < |changes| && changes[i].Add?|
    ensures summary.deletions == |set i: nat | i < |changes| && changes[i].Remove?|
    ensures summary.changes == |set i: nat | i < |changes| && changes[i].Replace?|
    ensures summary.additions + summary.deletions + summary.changes == |changes|
    ensures jsonMode <==> settings.parse(left.body).Some? && settings.parse(right.body).Some?
  {
    var leftBody, rightBody := settings.parse(left.body), settings.parse(right.body);
    jsonMode := leftBody.Some? && rightBody.Some?;
    var raw: seq<Change>;
    if jsonMode {
      raw := Compare(leftBody.value, rightBody.value, [Key("body")]);
    } else {
      raw := CompareText(left.body, right.body);
    }
    raw := raw + HeaderChanges(settings, left, right);
    ghost var before := raw;
    if left.status != right.status {
      raw := raw + [Replace([Key("status")], Number(left.status as real), Number(right.status as real))];
    }
    if left.statusText != right.statusText {
      raw := raw + [Replace([Key("statusText")], Text(left.statusText), Text(right.statusText))];
    }
    assert raw == before + StatusChanges(left, right);
    changes := Filter(settings, raw);
    summary := Summarize(changes);
    SummaryCounts(changes);
  }

  // What is reported, part by part.

  lemma {:induction false} InKept(settings: Settings, changes: seq<Change>, c: Change)
    ensures c in Kept(settings, changes) <==> c in changes && !ShouldIgnore(settings, c.path)
  {
    if changes != [] {
      InKept(settings, changes[1..], c);
      assert changes == [changes[0]] + changes[1..];
    }
  }

  /** The change of one of the two parts of the status, from the left to the right. */
  predicate StatusChanged(left: Response, right: Response, c: Change) {
    || (left.status != right.status
        && c == Replace([Key("status")], Number(left.status as real), Number(right.status as real)))
    || (left.statusText != right.statusText
        && c == Replace([Key("statusText")], Text(left.statusText), Text(right.statusText)))
  }

  /** A change of the bodies: of the two values under `body` if both parse, and of the two lists of lines otherwise. */
  predicate BodyChanged(settings: Settings, left: string, right: string, c: Change) {
    var l, r := settings.parse(left), settings.parse(right);
    if l.Some? && r.Some? then c in AllUnder([Key("body")], Compare(l.value, r.value, []))
    else c in Compare(Array(Texts(SplitLines(left))), Array(Texts(SplitLines(right))), [])
  }

  /** A change of the headers, under `headers`. */
  predicate HeadersChanged(settings: Settings, left: Response, right: Response, c: Change) {
    c in AllUnder([Key("headers")], Compare(Object(HeadersToObject(left.headers, settings.lower)),
                                            Object(HeadersToObject(right.headers, settings.lower)), []))
  }

  /** A change is reported exactly if its path is not ignored and the bodies, the headers or the status changed so. */
  lemma {:induction false} ReportedIff(settings: Settings, left: Response, right: Response, c: Change)
    ensures c in Kept(settings, BodyChanges(settings, left.body, right.body) + HeaderChanges(settings, left, right)
                                + StatusChanges(left, right))
       <==> && !ShouldIgnore(settings, c.path)
            && (|| BodyChanged(settings, left.body, right.body, c) || HeadersChanged(settings, left, right, c)
                || StatusChanged(left, right, c))
  {
    var body, headers, status :=
      BodyChanges(settings, left.body, right.body), HeaderChanges(settings, left, right), StatusChanges(left, right);
    InKept(settings, body + headers + status, c);
    CompareUnder(Object(HeadersToObject(left.headers, settings.lower)),
                 Object(HeadersToObject(right.headers, settings.lower)), [Key("headers")]);
    var l, r := settings.parse(left.body), settings.parse(right.body);
    if l.Some? && r.Some? {
      CompareUnder(l.value, r.value, [Key("body")]);
    }
    assert c in status <==> StatusChanged(left, right, c);
  }

  // The direction of the counts.

  /** The keys among some that one side has and the other does not. */
  function OnlyIn(side: seq<Field>, other: seq<Field>, keys: seq<string>): set<string> {
    set k | k in keys && Position(side, k) >= 0 && Position(other, k) < 0
  }

  /** What both sides have is the same. */
  ghost predicate ShareValues(left: seq<Field>, right: seq<Field>) {
    forall k :: Position(left, k) >= 0 && Position(right, k) >= 0 ==>
      left[Position(left, k)].value == right[Position(right, k)].value
  }

  lemma KeyCount(side: seq<Field>, other: seq<Field>, keys: seq<string>)
    requires keys != [] && forall i, j | 0 <= i < j < |keys| :: keys[i] != keys[j]
    ensures |OnlyIn(side, other, keys)|
         == (if Position(side, keys[0]) >= 0 && Position(other, keys[0]) < 0 then 1 else 0)
            + |OnlyIn(side, other, keys[1..])|
  {
    var k, rest := keys[0], OnlyIn(side, other, keys[1..]);
    assert keys == [k] + keys[1..];
    assert k !in keys[1..];
    if Position(side, k) >= 0 && Position(other, k) < 0 {
      assert OnlyIn(side, other, keys) == rest + {k};
    } else {
      assert OnlyIn(side, other, keys) == rest;
    }
  }

  lemma {:induction false} SharedFieldsCount(left: seq<Field>, right: seq<Field>, keys: seq<string>)
    requires ShareValues(left, right) && forall i, j | 0 <= i < j < |keys| :: keys[i] != keys[j]
    ensures Summarize(CompareFields(left, right, keys, []))
         == Summary(|OnlyIn(right, left, keys)|, |OnlyIn(left, right, keys)|, 0)
  {
    if keys == [] {
      assert OnlyIn(right, left, []) == {} && OnlyIn(left, right, []) == {};
    } else {
      SharedFieldsCount(left, right, keys[1..]);
      KeyCount(right, left, keys);
      KeyCount(left, right, keys);
      FirstSharedField(left, right, keys);
    }
  }

  lemma CountFirst(c: Change, rest: seq<Change>)
    ensures var (all, some) := (Summarize([c] + rest), Summarize(rest));
      && all.additions == some.additions + (if c.Add? then 1 else 0)
      && all.deletions == some.deletions + (if c.Remove? then 1 else 0)
      && all.changes == some.changes + (if c.Replace? then 1 else 0)
  {
    assert ([c] + rest)[1..] == rest;
  }

  lemma SharedFieldsFirst(left: seq<Field>, right: seq<Field>, keys: seq<string>)
    requires ShareValues(left, right) && keys != []
    ensures var (l, r) := (Position(left, keys[0]), Position(right, keys[0]));
      var rest := CompareFields(left, right, keys[1..], []);
      CompareFields(left, right, keys, [])
      == if (l < 0) == (r < 0) then rest
         else if l < 0 then [Add([Key(keys[0])], right[r].value)] + rest
         else [Remove([Key(keys[0])], left[l].value)] + rest
  {
    assert [] + [Key(keys[0])] == [Key(keys[0])];
    assert [] + CompareFields(left, right, keys[1..], []) == CompareFields(left, right, keys[1..], []);
  }

  lemma FirstSharedField(left: seq<Field>, right: seq<Field>, keys: seq<string>)
    requires ShareValues(left, right) && keys != []
    ensures var (l, r) := (Position(left, keys[0]), Position(right, keys[0]));
      var (all, rest) := (Summarize(CompareFields(left, right, keys, [])),
                          Summarize(CompareFields(left, right, keys[1..], [])));
      && all.additions == rest.additions + (if l < 0 && r >= 0 then 1 else 0)
      && all.deletions == rest.deletions + (if l >= 0 && r < 0 then 1 else 0)
      && all.changes == rest.changes
  {
    var rest := CompareFields(left, right, keys[1..], []);
    var l, r := Position(left, keys[0]), Position(right, keys[0]);
    SharedFieldsFirst(left, right, keys);
    if l < 0 && r >= 0 {
      CountFirst(Add([Key(keys[0])], right[r].value), rest);
    } else if l >= 0 && r < 0 {
      CountFirst(Remove([Key(keys[0])], left[l].value), rest);
    }
  }

  /** Between objects that share all values, each key only the right has is an addition, only the left a deletion. */
  lemma {:induction false} CountsHaveDirection(left: Json, right: Json)
    requires WellFormed(left) && WellFormed(right) && left.Object? && right.Object?
    requires ShareValues(left.fields, right.fields)
    ensures Summarize(Compare(left, right, []))
         == Summary(|set k | k in Keys(right.fields) && k !in Keys(left.fields)|,
                    |set k | k in Keys(left.fields) && k !in Keys(right.fields)|, 0)
  {
    var x, y := left.fields, right.fields;
    var keys := UnionKeys(x, y);
    assert Object(x) == left && Object(y) == right;
    DistinctUnion(x, y);
    SharedFieldsCount(x, y, keys);
    OnlyInIs(x, y);
    if left == right {
      assert OnlyIn(x, y, keys) == {} && OnlyIn(y, x, keys) == {};
    }
  }

  lemma OnlyInIs(left: seq<Field>, right: seq<Field>)
    ensures OnlyIn(right, left, UnionKeys(left, right)) == set k | k in Keys(right) && k !in Keys(left)
    ensures OnlyIn(left, right, UnionKeys(left, right)) == set k | k in Keys(left) && k !in Keys(right)
  {
    forall k
      ensures k in UnionKeys(left, right) <==> Position(left, k) >= 0 || Position(right, k) >= 0
      ensures (k in Keys(left) <==> Position(left, k) >= 0) && (k in Keys(right) <==> Position(right, k) >= 0)
    {
      InUnion(left, right, k);
      InKeys(left, k);
      InKeys(right, k);
    }
  }

  lemma OneMoreKept(settings: Settings, raw: seq<Change>, i: nat, done: seq<Change>)
    requires i < |raw|
    ensures done + Kept(settings, raw[i..])
         == (if ShouldIgnore(settings, raw[i].path) then done else done + [raw[i]]) + Kept(settings, raw[i + 1..])
  {
    assert raw[i..][1..] == raw[i + 1..];
    var here := if ShouldIgnore(settings, raw[i].path) then [] else [raw[i]];
    ConcatAssociates(done, here, Kept(settings, raw[i + 1..]));
    assert done + [] == done;
  }

  method Filter(settings: Settings, raw: seq<Change>) returns (changes: seq<Change>)
    ensures changes == Kept(settings, raw)
  {
    changes := [];
    var i := 0;
    assert raw[0..] == raw;
    while i < |raw|
      invariant 0 <= i <= |raw|
      invariant Kept(settings, raw) == changes + Kept(settings, raw[i..])
    {
      OneMoreKept(settings, raw, i, changes);
      if !ShouldIgnore(settings, raw[i].path) {
        changes := changes + [raw[i]];
      }
      i := i + 1;
    }
  }

  predicate SameBodies(settings: Settings, left: string, right: string) {
    var l, r := settings.parse(left), settings.parse(right);
    if l.Some? && r.Some? then SameUpToOrder(l.value, r.value) else SplitLines(left) == SplitLines(right)
  }

  lemma {:induction false} NothingIgnored(settings: Settings, changes: seq<Change>)
    requires settings.ignorePaths == []
    ensures Kept(settings, changes) == changes
  {
    if changes != [] {
      NothingIgnored(settings, changes[1..]);
    }
  }

  lemma NoChangesUnder(left: Json, right: Json, path: Path)
    requires WellFormed(left) && WellFormed(right)
    ensures Compare(left, right, path) == [] <==> SameUpToOrder(left, right)
  {
    CompareUnder(left, right, path);
    NoChangesIffSame(left, right);
    assert |Compare(left, right, path)| == |Compare(left, right, [])|;
  }

  lemma SameTexts(x: seq<string>, y: seq<string>)
    ensures SameUpToOrder(Array(Texts(x)), Array(Texts(y))) <==> x == y
  {
    if SameUpToOrder(Array(Texts(x)), Array(Texts(y))) {
      forall i | 0 <= i < |x|
        ensures x[i] == y[i]
      {
        assert SameUpToOrder(Texts(x)[i], Texts(y)[i]);
      }
    }
  }

  /** With nothing ignored, no change is reported exactly when status, headers and bodies say the same. */
  lemma {:induction false} NoChangesIffResponsesAgree(settings: Settings, left: Response, right: Response)
    requires settings.ignorePaths == []
    requires forall text :: settings.parse(text).Some? ==> WellFormed(settings.parse(text).value)
    ensures Kept(settings, BodyChanges(settings, left.body, right.body) + HeaderChanges(settings, left, right)
                           + StatusChanges(left, right)) == []
       <==> && SameBodies(settings, left.body, right.body)
            && SameUpToOrder(Object(HeadersToObject(left.headers, settings.lower)),
                             Object(HeadersToObject(right.headers, settings.lower)))
            && left.status == right.status && left.statusText == right.statusText
  {
    var body, headers, status :=
      BodyChanges(settings, left.body, right.body), HeaderChanges(settings, left, right), StatusChanges(left, right);
    NothingIgnored(settings, body + headers + status);
    var l, r := settings.parse(left.body), settings.parse(right.body);
    if l.Some? && r.Some? {
      NoChangesUnder(l.value, r.value, [Key("body")]);
    } else {
      NoChangesUnder(Array(Texts(SplitLines(left.body))), Array(Texts(SplitLines(right.body))), []);
      SameTexts(SplitLines(left.body), SplitLines(right.body));
    }
    NoChangesUnder(Object(HeadersToObject(left.headers, settings.lower)),
                   Object(HeadersToObject(right.headers, settings.lower)), [Key("headers")]);
  }
}
