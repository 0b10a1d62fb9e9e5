/** What one line of an environment file is read as, by what it is written from. */
module EnvLines {
  import opened Options
  import opened Seqs
  import opened JsText
  import opened EnvText

  /** Blank lines and comments, wherever they start, are passed over. */
  lemma CommentIsPassedOver(before: string, comment: string, after: string, sensitive: string -> bool)
    requires Blank(before) && Blank(after) && Trimmed(comment) && (comment != "" ==> comment[0] == '#')
    ensures ReadLine(before + comment + after, sensitive) == []
  {
    TrimCuts(before, comment, after);
  }

  lemma BlankHasNoEquals(a: string)
    requires Blank(a)
    ensures '=' !in a
  {
  }

  lemma ReadAround(name: string, rest: string, sensitive: string -> bool)
    requires '=' !in name
    ensures ReadAssignment(name + ['='] + rest, sensitive)
         == if Trim(name) == "" then []
            else [Variable(Trim(name), ParseEnvValue(Trim(rest)), true, sensitive(Trim(name)))]
  {
    var text := name + ['='] + rest;
    FindCharAfter(name, '=', rest);
    assert text[..|name|] == name && text[|name| + 1..] == rest;
  }

  lemma TrimKey(key: string, a: string)
    requires key != "" && Trimmed(key) && Blank(a)
    ensures Trim(key + a) == key
  {
    assert (key + a)[0] == key[0];
    TrimEndBefore(key, a);
  }

  lemma TrimValue(b: string, raw: string)
    requires Blank(b) && Trimmed(raw)
    ensures Trim(b + raw) == raw
  {
    TrimStartAfter(b, raw);
    TrimEndBefore(raw, "");
    assert raw + "" == raw;
  }

  lemma TrimBlank(a: string)
    requires Blank(a)
    ensures Trim(a) == ""
  {
    TrimStartAfter(a, "");
    assert a + "" == a;
  }

  lemma NoEqualsTogether(key: string, a: string)
    requires '=' !in key && '=' !in a
    ensures '=' !in key + a
  {
  }

  lemma AssignmentIsRead(key: string, a: string, b: string, raw: string, sensitive: string -> bool)
    requires key != "" && Trimmed(key) && '=' !in key && Blank(a) && Blank(b) && Trimmed(raw)
    ensures ReadAssignment(key + a + ['='] + (b + raw), sensitive)
         == [Variable(key, ParseEnvValue(raw), true, sensitive(key))]
  {
    BlankHasNoEquals(a);
    NoEqualsTogether(key, a);
    ReadAround(key + a, b + raw, sensitive);
    TrimKey(key, a);
    TrimValue(b, raw);
  }

  /** Without an equals sign there is nothing to read. */
  lemma NothingWithoutEquals(text: string, sensitive: string -> bool)
    requires '=' !in text
    ensures ReadAssignment(text, sensitive) == []
  {
    FindChar(text, '=');
  }

  /** Without a key before the equals sign there is nothing to read. */
  lemma NothingWithoutAKey(a: string, text: string, sensitive: string -> bool)
    requires Blank(a)
    ensures ReadAssignment(a + ['='] + text, sensitive) == []
  {
    BlankHasNoEquals(a);
    TrimBlank(a);
    ReadAround(a, text, sensitive);
  }

  /** The text of an assignment, with or without the word that exports it. */
  function Assignment(spaces: Option<string>, key: string, a: string, b: string, raw: string): string {
    (match spaces
     case Some(s) => "export" + s
     case None => "") + (key + a + ['='] + (b + raw))
  }

  lemma ExportIsStripped(spaces: Option<string>, key: string, a: string, b: string, raw: string)
    requires key != "" && !IsSpace(key[0])
    requires match spaces
      case Some(s) => s != "" && Blank(s)
      case None => !HasExport(key + a + ['='] + (b + raw))
    ensures StripExport(Assignment(spaces, key, a, b, raw)) == key + a + ['='] + (b + raw)
  {
    var rest := key + a + ['='] + (b + raw);
    assert rest[0] == key[0];
    match spaces {
      case Some(s) => StripsExport(s, rest);
      case None => assert "" + rest == rest;
    }
  }

  lemma StripsExport(spaces: string, rest: string)
    requires spaces != "" && Blank(spaces) && rest != "" && !IsSpace(rest[0])
    ensures StripExport("export" + spaces + rest) == rest
  {
    var line := "export" + spaces + rest;
    assert line[..6] == "export" && line[6..] == spaces + rest && line[6] == spaces[0];
    TrimStartAfter(spaces, rest);
  }

  /**
   A line with a key, an equals sign and a value is read as an enabled variable of that key and what the value says,
   whatever white space stands between them and at the ends, and also after the word `export`.
   */
  lemma {:induction false} LineIsRead(
    before: string, spaces: Option<string>, key: string, a: string, b: string, raw: string, after: string,
    sensitive: string -> bool
  )
    requires Blank(before) && Blank(a) && Blank(b) && Blank(after)
    requires key != "" && Trimmed(key) && '=' !in key && key[0] != '#' && raw != "" && Trimmed(raw)
    requires match spaces
      case Some(s) => s != "" && Blank(s)
      case None => !HasExport(key + a + ['='] + (b + raw))
    ensures ReadLine(before + Assignment(spaces, key, a, b, raw) + after, sensitive)
         == [Variable(key, ParseEnvValue(raw), true, sensitive(key))]
  {
    var line := Assignment(spaces, key, a, b, raw);
    assert line != "" && Last(line) == Last(raw);
    assert line[0] == if spaces.Some? then 'e' else key[0];
    TrimCuts(before, line, after);
    ExportIsStripped(spaces, key, a, b, raw);
    AssignmentIsRead(key, a, b, raw, sensitive);
  }

  /** A value without quotes at its ends is read as it is, and one in single quotes with escaped ones in it opened. */
  lemma PlainValues(raw: string, inner: string)
    ensures raw == "" || (raw[0] != '"' && raw[0] != '\'') ==> ParseEnvValue(raw) == raw
    ensures raw != "" && Last(raw) != raw[0] ==> ParseEnvValue(raw) == raw
    ensures ParseEnvValue(['\''] + inner + ['\'']) == Unescape(inner, '\'', '\'')
  {
    assert (['\''] + inner + ['\''])[1..|inner| + 1] == inner;
  }

  /** What is printed: enabled, with a key that is not blank, and if it is sensitive only where that is asked for. */
  function PrintedOf(includeSensitive: bool): Variable -> seq<Variable> {
    (item: Variable) =>
      if item.enabled && (exists i :: 0 <= i < |item.key| && !IsSpace(item.key[i]))
        && (item.sensitive ==> includeSensitive)
      then [item] else []
  }

  lemma {:induction false} ExportedArePrinted(variables: seq<Variable>, includeSensitive: bool)
    ensures Exported(variables, includeSensitive) == FlatMap(PrintedOf(includeSensitive), variables)
  {
    if variables != [] {
      ExportedArePrinted(variables[1..], includeSensitive);
      var key := variables[0].key;
      assert Blank(key) <==> forall i :: 0 <= i < |key| ==> IsSpace(key[i]);
    }
  }
}
