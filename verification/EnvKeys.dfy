/**
 The keys of environment files: exactly which of them are read back, and with the values exactly when a printed file
 keeps its variables.
 */
module EnvKeys {
  import opened Options
  import opened Seqs
  import opened JsText
  import opened EnvText

  // What a read key looks like.

  lemma {:induction false} TrimStartDropsSpaces(s: string)
    ensures forall i :: 0 <= i < |s| - |TrimStart(s)| ==> IsSpace(s[i])
  {
    if s != "" && IsSpace(s[0]) {
      TrimStartDropsSpaces(s[1..]);
      assert forall i :: 0 < i < |s| ==> s[i] == s[1..][i - 1];
    }
  }

  lemma TrimIsPart(s: string)
    ensures |Trim(s)| <= |s| && forall c <- Trim(s) :: c in s
  {
    var t := TrimStart(s);
    assert forall c <- t :: c in s;
    assert forall c <- Trim(s) :: c in t;
  }

  /** No equals sign, no line break. */
  predicate CleanKey(key: string) {
    '=' !in key && OneLine(key)
  }

  lemma AssignmentKeyIsClean(line: string, sensitive: string -> bool)
    requires OneLine(line)
    ensures |ReadAssignment(line, sensitive)| <= 1
    ensures forall v <- ReadAssignment(line, sensitive) :: CleanKey(v.key)
  {
    var eq := Find(line, "=");
    FindChar(line, '=');
    if eq >= 0 {
      TrimIsPart(line[..eq]);
      assert '=' !in line[..eq];
    }
  }

  lemma ReadKeyIsClean(line: string, sensitive: string -> bool)
    requires OneLine(line)
    ensures |ReadLine(line, sensitive)| <= 1
    ensures forall v <- ReadLine(line, sensitive) :: CleanKey(v.key)
  {
    TrimIsPart(line);
    var trimmed := Trim(line);
    if HasExport(trimmed) {
      assert forall c <- TrimStart(trimmed[6..]) :: c in trimmed;
    }
    AssignmentKeyIsClean(StripExport(trimmed), sensitive);
  }

  lemma LinesAreOneLine(text: string)
    ensures forall line <- SplitLines(text) :: OneLine(line)
  {
    SplitParts(text, '\n');
    var parts, lines := Split(text, "\n"), SplitLines(text);
    forall line | line in lines
      ensures OneLine(line)
    {
      var i :| 0 <= i < |lines| && lines[i] == line;
      assert parts[i] in parts;
    }
  }

  lemma {:induction false} FlatMapComesFrom<A, B>(f: A -> seq<B>, s: seq<A>, x: B)
    requires x in FlatMap(f, s)
    ensures exists a :: a in s && x in f(a)
  {
    if x in f(s[0]) {
      assert s[0] in s;
    } else {
      FlatMapComesFrom(f, s[1..], x);
    }
  }

  lemma ReadKeysAreClean(text: string, sensitive: string -> bool)
    ensures forall v <- ReadText(text, sensitive) :: CleanKey(v.key)
  {
    LinesAreOneLine(text);
    forall v | v in ReadText(text, sensitive)
      ensures CleanKey(v.key)
    {
      FlatMapComesFrom(LineReader(sensitive), SplitLines(text), v);
      var line :| line in SplitLines(text) && v in LineReader(sensitive)(line);
      ReadKeyIsClean(line, sensitive);
    }
  }

  // When a printed line gives its key.

  lemma TrimStartKeepsEquals(s: string, n: nat)
    requires n < |s| && s[n] == '='
    ensures 0 <= Find(TrimStart(s), "=") <= n
  {
    var dropped := |s| - |TrimStart(s)|;
    TrimStartDropsSpaces(s);
    assert dropped <= n;
    FindChar(TrimStart(s), '=');
    assert TrimStart(s)[n - dropped] == s[n];
  }

  lemma KeyIsNoLonger(line: string, sensitive: string -> bool)
    ensures forall v <- ReadAssignment(line, sensitive) :: |v.key| <= Find(line, "=")
  {
    if Find(line, "=") >= 0 {
      TrimIsPart(line[..Find(line, "=")]);
    }
  }

  lemma ExportInLine(key: string, value: string)
    requires HasExport(key)
    ensures var line := key + "=" + value;
      HasExport(line) && |line[6..]| > |key| - 6 && line[6..][|key| - 6] == '='
  {
    var line := key + "=" + value;
    assert line[..6] == key[..6] && line[6] == key[6];
  }

  /** A prefix `export` is taken off the key. */
  lemma ExportKeyIsShorter(key: string, value: string, sensitive: string -> bool)
    ensures HasExport(key) ==>
      forall v <- ReadAssignment(StripExport(key + "=" + value), sensitive) :: |v.key| < |key|
  {
    var line := key + "=" + value;
    KeyIsNoLonger(StripExport(line), sensitive);
    if HasExport(key) {
      ExportInLine(key, value);
      TrimStartKeepsEquals(line[6..], |key| - 6);
    }
  }

  /** A printed line that is read as its own key has a key the parser can tell. */
  lemma KeyIsGood(item: Variable, sensitive: string -> bool, v: Variable)
    requires OneLineKey(item) && '=' !in Trim(item.key)
    requires ReadLine(PrintLine(item), sensitive) == [v] && v.key == Trim(item.key)
    ensures GoodKey(Trim(item.key))
  {
    var key := Trim(item.key);
    PrintedLineIsTrimmed(item);
    assert Trimmed(key);
    assert v in [v];
    ExportKeyIsShorter(key, FormatEnvValue(item.value), sensitive);
  }

  // The whole text.

  predicate SameKeys(a: seq<Variable>, b: seq<Variable>) {
    |a| == |b| && forall i :: 0 <= i < |a| ==> a[i].key == Trim(b[i].key)
  }

  lemma {:induction false} AtMostOneEach<A, B>(f: A -> seq<B>, s: seq<A>)
    requires forall a <- s :: |f(a)| <= 1
    ensures |FlatMap(f, s)| <= |s|
    ensures |FlatMap(f, s)| == |s| ==> forall i :: 0 <= i < |s| ==> f(s[i]) == [FlatMap(f, s)[i]]
  {
    if s != [] {
      assert s[0] in s && forall a <- s[1..] :: a in s;
      AtMostOneEach(f, s[1..]);
      if |FlatMap(f, s)| == |s| {
        assert forall i :: 0 < i < |s| ==> FlatMap(f, s)[i] == FlatMap(f, s[1..])[i - 1] && s[i] == s[1..][i - 1];
      }
    }
  }

  lemma PrintedLinesAreOneLine(items: seq<Variable>, sensitive: string -> bool)
    requires forall v <- items :: OneLineKey(v)
    ensures forall line <- PrintLines(items) :: |LineReader(sensitive)(line)| <= 1
  {
    var lines := PrintLines(items);
    forall line | line in lines
      ensures |LineReader(sensitive)(line)| <= 1
    {
      var i :| 0 <= i < |lines| && lines[i] == line;
      assert items[i] in items;
      PrintedLineIsTrimmed(items[i]);
      ReadKeyIsClean(line, sensitive);
    }
  }

  lemma {:induction false} ExportedAreNotBlank(variables: seq<Variable>, includeSensitive: bool)
    ensures forall v <- Exported(variables, includeSensitive) :: Trim(v.key) != ""
  {
    if variables != [] {
      ExportedAreNotBlank(variables[1..], includeSensitive);
      TrimOfNotBlank(variables[0].key);
    }
  }

  lemma TrimOfNotBlank(s: string)
    ensures Trim(s) == "" ==> Blank(s)
  {
    TrimStartDropsSpaces(s);
  }

  /** When the keys come back, every line was read for itself. */
  lemma SameKeysAreReadable(items: seq<Variable>, sensitive: string -> bool)
    requires items != [] && forall v <- items :: Trim(v.key) != ""
    requires SameKeys(ReadText(Join(PrintLines(items), "\n"), sensitive), items)
    ensures forall v <- items :: ReadableKey(v)
  {
    var back := ReadText(Join(PrintLines(items), "\n"), sensitive);
    ReadKeysAreClean(Join(PrintLines(items), "\n"), sensitive);
    forall v | v in items
      ensures CleanKey(Trim(v.key))
    {
      var i :| 0 <= i < |items| && items[i] == v;
      assert back[i] in back;
    }
    SplitPrintedLines(items);
    PrintedLinesAreOneLine(items, sensitive);
    AtMostOneEach(LineReader(sensitive), PrintLines(items));
    forall v | v in items
      ensures ReadableKey(v)
    {
      var i :| 0 <= i < |items| && items[i] == v;
      assert LineReader(sensitive)(PrintLines(items)[i]) == [back[i]];
      KeyIsGood(v, sensitive, back[i]);
    }
  }

  /**
   A printed file gives back the keys of its variables, one for one, exactly if every key is readable; and then each
   variable comes back with the value that the quoting leaves of it.
   */
  lemma {:induction false} ExportedTextReadsBackIff(
    variables: seq<Variable>, includeSensitive: bool, sensitive: string -> bool
  )
    ensures var (items, back) := (Exported(variables, includeSensitive),
                                  ReadText(ExportEnvText(variables, includeSensitive), sensitive));
      && (SameKeys(back, items) <==> forall v <- items :: ReadableKey(v))
      && (back == ReadBackAll(items, sensitive) <==> forall v <- items :: ReadableKey(v))
  {
    var items := Exported(variables, includeSensitive);
    var back := ReadText(ExportEnvText(variables, includeSensitive), sensitive);
    ExportedAreNotBlank(variables, includeSensitive);
    if SameKeys(back, items) && items != [] {
      SameKeysAreReadable(items, sensitive);
    }
    if forall v <- items :: ReadableKey(v) {
      ReadableTextReadsBack(variables, includeSensitive, sensitive);
    }
    if back == ReadBackAll(items, sensitive) {
      assert SameKeys(back, items);
    }
  }

  predicate SameKeysAndValues(a: seq<Variable>, b: seq<Variable>) {
    |a| == |b| && forall i :: 0 <= i < |a| ==> a[i].key == Trim(b[i].key) && a[i].value == b[i].value
  }

  lemma ReadsBackSameIff(items: seq<Variable>, sensitive: string -> bool)
    ensures SameKeysAndValues(ReadBackAll(items, sensitive), items)
       <==> forall v <- items :: ReadValue(v.value) == v.value
  {
    var back := ReadBackAll(items, sensitive);
    assert forall i :: 0 <= i < |items| ==>
      items[i] in items && back[i].key == Trim(items[i].key) && back[i].value == ReadValue(items[i].value);
    if SameKeysAndValues(back, items) {
      forall v | v in items
        ensures ReadValue(v.value) == v.value
      {
        var i :| 0 <= i < |items| && items[i] == v;
        assert back[i].value == v.value;
      }
    }
  }

  /**
   The file keeps the enabled key and value list exactly if every key in it is readable and every value was bare or
   survives quoting.
   */
  lemma {:induction false} EnvTextRoundTripsIff(variables: seq<Variable>, sensitive: string -> bool)
    ensures SameKeysAndValues(ReadText(ExportEnvText(variables, true), sensitive), Exported(variables, true))
       <==> forall v <- Exported(variables, true) :: ReadableKey(v) && (Bare(v.value) || Survives(v.value))
  {
    var items := Exported(variables, true);
    var back := ReadText(ExportEnvText(variables, true), sensitive);
    ExportedTextReadsBackIff(variables, true, sensitive);
    ReadsBackSameIff(items, sensitive);
    if SameKeysAndValues(back, items) {
      assert SameKeys(back, items);
    }
    forall v | v in items
      ensures ReadValue(v.value) == v.value <==> Bare(v.value) || Survives(v.value)
    {
      StageFourKeeps(v.value);
    }
  }
}
