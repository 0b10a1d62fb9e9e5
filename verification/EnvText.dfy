/**
 Environment files: the printer writes values bare or as JSON strings, the parser undoes the quoting with four
 replacements one after another. What the parser reads back is worked out for every value, and with it exactly which
 values survive.
 */
module EnvText {
  import opened Options
  import opened Seqs
  import opened JsText

  datatype Variable = Variable(key: string, value: string, enabled: bool, sensitive: bool)

  // Printing a value.

  /** `/^[^\s#"'\\]+$/`. */
  predicate Bare(value: string) {
    value != "" && forall c <- value :: !IsSpace(c) && c != '#' && c != '"' && c != '\'' && c != '\\'
  }

  /** The characters JSON escapes besides the quote, the backslash, line feed and carriage return. */
  predicate OtherControl(c: char) {
    c < '\U{0020}' && c != '\n' && c != '\r'
  }

  function Hex(d: nat): char
    requires d < 16
  {
    "0123456789abcdef"[d]
  }

  /** What follows the backslash in the JSON escape of a control character. */
  function ControlEscape(c: char): (s: string)
    requires OtherControl(c)
    ensures s != "" && s[0] in {'b', 'f', 't', 'u'} && forall i :: 0 <= i < |s| ==> s[i] != '\\'
  {
    if c == '\U{0008}' then "b"
    else if c == '\U{000C}' then "f"
    else if c == '\t' then "t"
    else ['u', '0', '0', Hex(c as int / 16), Hex(c as int % 16)]
  }

  /** `JSON.stringify` of a character inside a string. */
  function Escape(c: char): string {
    if c == '"' then "\\\""
    else if c == '\\' then "\\\\"
    else if c == '\n' then "\\n"
    else if c == '\r' then "\\r"
    else if OtherControl(c) then "\\" + ControlEscape(c)
    else [c]
  }

  function EscapeAll(value: string): string {
    if value == "" then "" else Escape(value[0]) + EscapeAll(value[1..])
  }

  function FormatEnvValue(value: string): string {
    if Bare(value) then value else "\"" + EscapeAll(value) + "\""
  }

  // Parsing a value.

  function ParseEnvValue(raw: string): string {
    if raw != "" && raw[0] == '"' && Last(raw) == '"' then
      var inner := if |raw| == 1 then "" else raw[1..|raw| - 1];
      Unescape(Unescape(Unescape(Unescape(inner, 'n', '\n'), 'r', '\r'), '"', '"'), '\\', '\\')
    else if raw != "" && raw[0] == '\'' && Last(raw) == '\'' then
      Unescape(if |raw| == 1 then "" else raw[1..|raw| - 1], '\'', '\'')
    else raw
  }

  // What the replacements do to a printed value, after the first `k` of them.

  function Stage(v: string, k: nat): string {
    if v == "" then ""
    else
      var c, rest := v[0], v[1..];
      if c == '\\' then
        if k >= 1 && rest != "" && rest[0] == 'n' then "\\\n" + Stage(rest[1..], k)
        else if k >= 2 && rest != "" && rest[0] == 'r' then "\\\r" + Stage(rest[1..], k)
        else (if k >= 4 then "\\" else "\\\\") + Stage(rest, k)
      else if c == '\n' then (if k >= 1 then "\n" else "\\n") + Stage(rest, k)
      else if c == '\r' then (if k >= 2 then "\r" else "\\r") + Stage(rest, k)
      else if c == '"' then (if k >= 3 then "\"" else "\\\"") + Stage(rest, k)
      else Escape(c) + Stage(rest, k)
  }

  function Letter(k: nat): char {
    if k == 1 then 'n' else if k == 2 then 'r' else if k == 3 then '"' else '\\'
  }

  function Decoded(k: nat): char {
    if k == 1 then '\n' else if k == 2 then '\r' else if k == 3 then '"' else '\\'
  }

  lemma {:induction false} StageZero(v: string)
    ensures Stage(v, 0) == EscapeAll(v)
  {
    if v != "" {
      StageZero(v[1..]);
    }
  }

  /** The k-th replacement. */
  function Pass(s: string, k: nat): string {
    Unescape(s, Letter(k), Decoded(k))
  }

  /** A character other than the backslash passes through. */
  lemma PlainPasses(c: char, s: string, k: nat)
    requires c != '\\'
    ensures Pass([c] + s, k) == [c] + Pass(s, k)
  {
    assert ([c] + s)[1..] == s;
  }

  lemma {:induction false} PlainTextPasses(w: string, s: string, k: nat)
    requires forall i :: 0 <= i < |w| ==> w[i] != '\\'
    ensures Pass(w + s, k) == w + Pass(s, k)
  {
    if w == "" {
      assert w + s == s;
    } else {
      assert w + s == [w[0]] + (w[1..] + s);
      PlainPasses(w[0], w[1..] + s, k);
      PlainTextPasses(w[1..], s, k);
      assert [w[0]] + (w[1..] + Pass(s, k)) == w + Pass(s, k);
    }
  }

  /** A backslash not before the letter passes through. */
  lemma BackslashPasses(s: string, k: nat)
    requires s == "" || s[0] != Letter(k)
    ensures Pass(['\\'] + s, k) == ['\\'] + Pass(s, k)
  {
    assert (['\\'] + s)[1..] == s;
  }

  lemma LetterDecodes(s: string, k: nat)
    ensures Pass(['\\', Letter(k)] + s, k) == [Decoded(k)] + Pass(s, k)
  {
    assert (['\\', Letter(k)] + s)[2..] == s;
  }

  /** A backslash and a character that the replacement does not know. */
  lemma OtherEscapePasses(c: char, s: string, k: nat)
    requires c != Letter(k) && c != '\\'
    ensures Pass(['\\', c] + s, k) == ['\\', c] + Pass(s, k)
  {
    assert ['\\', c] + s == ['\\'] + ([c] + s);
    BackslashPasses([c] + s, k);
    PlainPasses(c, s, k);
    assert ['\\'] + ([c] + Pass(s, k)) == ['\\', c] + Pass(s, k);
  }

  /** How a stage starts, as far as the next replacement can see. */
  lemma StageStart(v: string, k: nat)
    requires k < 3
    ensures Stage(v, k) != "" <==> v != ""
    ensures v != "" && k < 2 ==> (Stage(v, k)[0] == Letter(k + 1) <==> v[0] == Letter(k + 1))
    ensures v != "" && k == 2 ==> Stage(v, k)[0] != '"'
  {
  }

  /** The replacement `k + 1` takes the stage `k` of a text to the next stage. */
  predicate Steps(v: string, k: nat) {
    Pass(Stage(v, k), k + 1) == Stage(v, k + 1)
  }

  /** Whether the letter after a backslash was already taken for an escape. */
  predicate Lost(rest: string, k: nat) {
    rest != "" && ((k >= 1 && rest[0] == 'n') || (k >= 2 && rest[0] == 'r'))
  }

  function LostCharacter(c: char): char {
    if c == 'n' then '\n' else '\r'
  }

  lemma StageOfLost(v: string, k: nat)
    requires v != "" && v[0] == '\\' && Lost(v[1..], k)
    ensures Stage(v, k) == ['\\', LostCharacter(v[1])] + Stage(v[2..], k)
  {
    assert v[1..][1..] == v[2..];
  }

  lemma StageOfBackslash(v: string, k: nat)
    requires v != "" && v[0] == '\\' && !Lost(v[1..], k)
    ensures Stage(v, k) == (if k >= 4 then ['\\'] else ['\\', '\\']) + Stage(v[1..], k)
  {
  }

  lemma LostEscapeStays(v: string, k: nat)
    requires v != "" && v[0] == '\\' && k < 4 && Lost(v[1..], k) && Steps(v[2..], k)
    ensures Steps(v, k)
  {
    StageOfLost(v, k);
    StageOfLost(v, k + 1);
    OtherEscapePasses(LostCharacter(v[1]), Stage(v[2..], k), k + 1);
  }

  lemma DoubleBackslashHalves(v: string)
    requires v != "" && v[0] == '\\' && !Lost(v[1..], 3) && Steps(v[1..], 3)
    ensures Steps(v, 3)
  {
    StageOfBackslash(v, 3);
    StageOfBackslash(v, 4);
    LetterDecodes(Stage(v[1..], 3), 4);
  }

  /** `[b, b] + ([l] + tail)` read as a backslash before an escape. */
  lemma PairBeforeLetter(b: char, l: char, tail: string)
    ensures [b, b] + ([l] + tail) == [b] + ([b, l] + tail)
  {
  }

  lemma EscapedBackslashThenLetter(k: nat, tail: string)
    requires 0 < k < 3
    ensures Pass(['\\'] + (['\\', Letter(k)] + tail), k) == ['\\', Decoded(k)] + Pass(tail, k)
  {
    BackslashPasses(['\\', Letter(k)] + tail, k);
    LetterDecodes(tail, k);
    assert ['\\'] + ([Decoded(k)] + Pass(tail, k)) == ['\\', Decoded(k)] + Pass(tail, k);
  }

  lemma StageBeforeLetter(v: string, k: nat)
    requires |v| > 1 && v[0] == '\\' && k < 2 && v[1] == Letter(k + 1)
    ensures Stage(v, k) == ['\\', '\\'] + ([v[1]] + Stage(v[2..], k))
  {
    assert v[1..][1..] == v[2..];
    assert !Lost(v[1..], k);
    StageOfBackslash(v, k);
    assert Stage(v[1..], k) == [v[1]] + Stage(v[2..], k);
  }

  lemma EscapeGetsLost(v: string, k: nat)
    requires |v| > 1 && v[0] == '\\' && k < 2 && v[1] == Letter(k + 1) && Steps(v[2..], k)
    ensures Steps(v, k)
  {
    StageBeforeLetter(v, k);
    StageOfLost(v, k + 1);
    PairBeforeLetter('\\', v[1], Stage(v[2..], k));
    EscapedBackslashThenLetter(k + 1, Stage(v[2..], k));
  }

  lemma PairPasses(after: string, k: nat)
    requires 0 < k < 4 && (after == "" || after[0] != Letter(k))
    ensures Pass(['\\', '\\'] + after, k) == ['\\', '\\'] + Pass(after, k)
  {
    assert ['\\', '\\'] + after == ['\\'] + (['\\'] + after);
    BackslashPasses(['\\'] + after, k);
    BackslashPasses(after, k);
    assert ['\\'] + (['\\'] + Pass(after, k)) == ['\\', '\\'] + Pass(after, k);
  }

  lemma DoubleBackslashStays(v: string, k: nat)
    requires v != "" && v[0] == '\\' && k < 3 && !Lost(v[1..], k) && Steps(v[1..], k)
    requires k < 2 && |v| > 1 ==> v[1] != Letter(k + 1)
    ensures Steps(v, k)
  {
    StageOfBackslash(v, k);
    NotLostLater(v, k);
    StageOfBackslash(v, k + 1);
    StageStart(v[1..], k);
    PairPasses(Stage(v[1..], k), k + 1);
  }

  lemma NotLostLater(v: string, k: nat)
    requires v != "" && k < 3 && !Lost(v[1..], k) && (k < 2 && |v| > 1 ==> v[1] != Letter(k + 1))
    ensures !Lost(v[1..], k + 1)
  {
  }

  lemma StageOfControl(v: string, k: nat)
    requires v != "" && OtherControl(v[0])
    ensures Stage(v, k) == ['\\'] + (ControlEscape(v[0]) + Stage(v[1..], k))
  {
    assert ['\\'] + (ControlEscape(v[0]) + Stage(v[1..], k)) == ("\\" + ControlEscape(v[0])) + Stage(v[1..], k);
  }

  lemma ControlSteps(v: string, k: nat)
    requires v != "" && OtherControl(v[0]) && k < 4 && Steps(v[1..], k)
    ensures Steps(v, k)
  {
    var w, after := ControlEscape(v[0]), Stage(v[1..], k);
    StageOfControl(v, k);
    StageOfControl(v, k + 1);
    assert (w + after)[0] == w[0];
    BackslashPasses(w + after, k + 1);
    PlainTextPasses(w, after, k + 1);
  }

  lemma OtherCharacterSteps(v: string, k: nat)
    requires v != "" && v[0] !in {'\\', '\n', '\r', '"'} && !OtherControl(v[0]) && k < 4 && Steps(v[1..], k)
    ensures Steps(v, k)
  {
    assert Stage(v, k) == [v[0]] + Stage(v[1..], k);
    PlainPasses(v[0], Stage(v[1..], k), k + 1);
  }

  /** The replacement that decodes a line feed, carriage return or quote. */
  function Turn(c: char): nat {
    if c == '\n' then 1 else if c == '\r' then 2 else 3
  }

  lemma StageOfQuoted(v: string, k: nat)
    requires v != "" && v[0] in {'\n', '\r', '"'}
    ensures Stage(v, k) == (if k >= Turn(v[0]) then [v[0]] else ['\\', Letter(Turn(v[0]))]) + Stage(v[1..], k)
  {
  }

  lemma QuotedCharacterSteps(v: string, k: nat)
    requires v != "" && v[0] in {'\n', '\r', '"'} && k < 4 && Steps(v[1..], k)
    ensures Steps(v, k)
  {
    var turn, after := Turn(v[0]), Stage(v[1..], k);
    StageOfQuoted(v, k);
    StageOfQuoted(v, k + 1);
    if k >= turn {
      PlainPasses(v[0], after, k + 1);
    } else if k + 1 == turn {
      LetterDecodes(after, k + 1);
    } else {
      OtherEscapePasses(Letter(turn), after, k + 1);
    }
  }

  lemma {:induction false} StageSteps(v: string, k: nat)
    requires k < 4
    ensures Steps(v, k)
    decreases |v|
  {
    if v != "" {
      var rest := v[1..];
      StageSteps(rest, k);
      if rest != "" {
        assert rest[1..] == v[2..];
        StageSteps(rest[1..], k);
      }
      if OtherControl(v[0]) {
        ControlSteps(v, k);
      } else if v[0] in {'\n', '\r', '"'} {
        QuotedCharacterSteps(v, k);
      } else if v[0] != '\\' {
        OtherCharacterSteps(v, k);
      } else if Lost(rest, k) {
        LostEscapeStays(v, k);
      } else if k == 3 {
        DoubleBackslashHalves(v);
      } else if k < 2 && rest != "" && rest[0] == Letter(k + 1) {
        EscapeGetsLost(v, k);
      } else {
        DoubleBackslashStays(v, k);
      }
    }
  }

  /** What a value comes back as, for every value. */
  lemma {:induction false} ParsedValue(value: string)
    ensures ParseEnvValue(FormatEnvValue(value)) == if Bare(value) then value else Stage(value, 4)
  {
    if Bare(value) {
      assert value[0] in value;
    } else {
      var inner := EscapeAll(value);
      var raw := "\"" + inner + "\"";
      assert raw[1..|raw| - 1] == inner;
      StageZero(value);
      StageSteps(value, 0);
      StageSteps(value, 1);
      StageSteps(value, 2);
      StageSteps(value, 3);
    }
  }

  // Which values survive.

  /**
   No control character that JSON escapes other than the two the parser knows, and no backslash directly before the
   letter n or r.
   */
  predicate Survives(v: string) {
    && (forall i :: 0 <= i < |v| ==> !OtherControl(v[i]))
    && (forall i :: 0 <= i < |v| - 1 && v[i] == '\\' ==> v[i + 1] != 'n' && v[i + 1] != 'r')
  }

  lemma {:induction false} StageIsNoShorter(v: string)
    ensures |Stage(v, 4)| >= |v|
    decreases |v|
  {
    if v != "" {
      StageIsNoShorter(v[1..]);
      if |v| > 1 {
        StageIsNoShorter(v[1..][1..]);
      }
    }
  }

  lemma SurvivesTail(v: string)
    requires v != ""
    ensures Survives(v) <==> Survives(v[1..]) && !OtherControl(v[0]) && !(v[0] == '\\' && Lost(v[1..], 4))
  {
    var rest := v[1..];
    assert forall i :: 0 <= i < |rest| ==> rest[i] == v[i + 1];
    if Survives(rest) && !OtherControl(v[0]) && !(v[0] == '\\' && Lost(rest, 4)) {
      forall i | 0 <= i < |v|
        ensures !OtherControl(v[i])
      {
        assert i > 0 ==> v[i] == rest[i - 1];
      }
      forall i | 0 <= i < |v| - 1 && v[i] == '\\'
        ensures v[i + 1] != 'n' && v[i + 1] != 'r'
      {
        assert v[i + 1] == rest[i];
        assert i > 0 ==> v[i] == rest[i - 1];
      }
    }
  }

  lemma {:induction false} StageFourKeeps(v: string)
    ensures Stage(v, 4) == v <==> Survives(v)
    decreases |v|
  {
    if v != "" {
      var c, rest := v[0], v[1..];
      SurvivesTail(v);
      StageFourKeeps(rest);
      StageIsNoShorter(rest);
      assert v == [c] + rest;
      if OtherControl(c) {
        assert Stage(v, 4) == "\\" + ControlEscape(c) + Stage(rest, 4);
        assert |Stage(v, 4)| > |v|;
      } else if c == '\\' && Lost(rest, 4) {
        assert Stage(v, 4)[1] != v[1];
      } else {
        assert Stage(v, 4) == [c] + Stage(rest, 4);
        assert Stage(v, 4)[1..] == Stage(rest, 4);
      }
    }
  }

  /** A value is read back as itself exactly if it was written bare or survives the quoting. */
  lemma {:induction false} ValueRoundTripsIff(value: string)
    ensures ParseEnvValue(FormatEnvValue(value)) == value <==> Bare(value) || Survives(value)
  {
    ParsedValue(value);
    StageFourKeeps(value);
  }

  // One pass against four.

  /** Decoding in one pass: every backslash takes the next character with it. */
  function DecodeOnce(s: string): string {
    if s == "" then ""
    else if s[0] != '\\' || |s| == 1 then [s[0]] + DecodeOnce(s[1..])
    else if s[1] == 'n' then "\n" + DecodeOnce(s[2..])
    else if s[1] == 'r' then "\r" + DecodeOnce(s[2..])
    else if s[1] == '"' || s[1] == '\\' then [s[1]] + DecodeOnce(s[2..])
    else [s[0], s[1]] + DecodeOnce(s[2..])
  }

  function Kept(v: string): string {
    if v == "" then ""
    else (if OtherControl(v[0]) then ['\\'] + ControlEscape(v[0]) else [v[0]]) + Kept(v[1..])
  }

  predicate NoLostEscape(v: string) {
    forall i :: 0 <= i < |v| - 1 && v[i] == '\\' ==> v[i + 1] != 'n' && v[i + 1] != 'r'
  }

  lemma {:induction false} PlainTextDecodes(w: string, s: string)
    requires forall i :: 0 <= i < |w| ==> w[i] != '\\'
    ensures DecodeOnce(w + s) == w + DecodeOnce(s)
  {
    if w == "" {
      assert w + s == s;
    } else {
      assert (w + s)[1..] == w[1..] + s;
      PlainTextDecodes(w[1..], s);
      assert [w[0]] + (w[1..] + DecodeOnce(s)) == w + DecodeOnce(s);
    }
  }

  lemma ControlDecodes(c: char, s: string)
    requires OtherControl(c)
    ensures DecodeOnce((['\\'] + ControlEscape(c)) + s) == (['\\'] + ControlEscape(c)) + DecodeOnce(s)
  {
    var w := ControlEscape(c);
    var t := (['\\'] + w) + s;
    assert t[1] == w[0] && t[2..] == w[1..] + s;
    assert DecodeOnce(t) == ['\\', w[0]] + DecodeOnce(w[1..] + s);
    PlainTextDecodes(w[1..], s);
    assert ['\\', w[0]] + (w[1..] + DecodeOnce(s)) == (['\\'] + w) + DecodeOnce(s);
  }

  lemma PairDecodes(letter: char, s: string)
    requires letter in {'n', 'r', '"', '\\'}
    ensures DecodeOnce(['\\', letter] + s)
         == [if letter == 'n' then '\n' else if letter == 'r' then '\r' else letter] + DecodeOnce(s)
  {
    assert (['\\', letter] + s)[2..] == s;
  }

  lemma {:induction false} OnePassDecodes(v: string)
    ensures DecodeOnce(EscapeAll(v)) == Kept(v)
  {
    if v != "" {
      var c, s := v[0], EscapeAll(v[1..]);
      OnePassDecodes(v[1..]);
      if OtherControl(c) {
        assert Escape(c) == ['\\'] + ControlEscape(c);
        ControlDecodes(c, s);
      } else if c == '"' || c == '\\' {
        PairDecodes(c, s);
      } else if c == '\n' {
        PairDecodes('n', s);
      } else if c == '\r' {
        PairDecodes('r', s);
      } else {
        assert ([c] + s)[1..] == s;
      }
    }
  }

  lemma NoLostEscapeTail(v: string)
    requires v != ""
    ensures NoLostEscape(v) <==> NoLostEscape(v[1..]) && !(v[0] == '\\' && Lost(v[1..], 4))
  {
    var rest := v[1..];
    assert forall i :: 0 <= i < |rest| ==> rest[i] == v[i + 1];
    if NoLostEscape(rest) && !(v[0] == '\\' && Lost(rest, 4)) {
      forall i | 0 <= i < |v| - 1 && v[i] == '\\'
        ensures v[i + 1] != 'n' && v[i + 1] != 'r'
      {
        assert v[i + 1] == rest[i];
        assert i > 0 ==> v[i] == rest[i - 1];
      }
    }
  }

  lemma KeptHead(head: string, a: string, b: string)
    ensures head + a == head + b <==> a == b
  {
    assert (head + a)[|head|..] == a && (head + b)[|head|..] == b;
  }

  lemma {:induction false} FinalStageIsKeptIff(v: string)
    ensures Stage(v, 4) == Kept(v) <==> NoLostEscape(v)
    decreases |v|
  {
    if v != "" {
      var c, rest := v[0], v[1..];
      NoLostEscapeTail(v);
      FinalStageIsKeptIff(rest);
      if c == '\\' && Lost(rest, 4) {
        assert Kept(v) == [c] + Kept(rest);
        assert Kept(rest) == [rest[0]] + Kept(rest[1..]);
        assert Stage(v, 4)[1] != Kept(v)[1];
      } else if OtherControl(c) {
        KeptHead(['\\'] + ControlEscape(c), Stage(rest, 4), Kept(rest));
        assert Stage(v, 4) == (['\\'] + ControlEscape(c)) + Stage(rest, 4);
      } else {
        KeptHead([c], Stage(rest, 4), Kept(rest));
        assert Stage(v, 4) == [c] + Stage(rest, 4);
      }
    }
  }

  /** The four replacements read a quoted value as one pass would, exactly if no backslash stands before n or r. */
  lemma {:induction false} FourPassesAreOneIff(value: string)
    requires !Bare(value)
    ensures ParseEnvValue(FormatEnvValue(value)) == DecodeOnce(EscapeAll(value)) <==> NoLostEscape(value)
  {
    ParsedValue(value);
    OnePassDecodes(value);
    FinalStageIsKeptIff(value);
  }

  /** A backslash and the letter n come back as a backslash and a line feed. */
  lemma {:induction false} BackslashLetterIsGarbled()
    ensures ParseEnvValue(FormatEnvValue(['\\', 'n'])) == ['\\', '\n']
  {
    var v := ['\\', 'n'];
    assert v[0] in v;
    ParsedValue(v);
    StageOfLost(v, 4);
  }

  // The whole text.

  predicate HasExport(line: string) {
    |line| > 6 && StartsWith(line, "export") && IsSpace(line[6])
  }

  /** `line.replace(/^export\s+/, "")`. */
  function StripExport(line: string): string {
    if HasExport(line) then TrimStart(line[6..]) else line
  }

  function ReadAssignment(normalized: string, sensitive: string -> bool): seq<Variable> {
    var eq := Find(normalized, "=");
    if eq == -1 then []
    else
      var key := Trim(normalized[..eq]);
      if key == "" then []
      else [Variable(key, ParseEnvValue(Trim(normalized[eq + 1..])), true, sensitive(key))]
  }

  /** One line of the file: at most one variable. */
  function ReadLine(rawLine: string, sensitive: string -> bool): seq<Variable> {
    var line := Trim(rawLine);
    if line == "" || line[0] == '#' then []
    else ReadAssignment(StripExport(line), sensitive)
  }

  function LineReader(sensitive: string -> bool): string -> seq<Variable> {
    line => ReadLine(line, sensitive)
  }

  function ReadText(text: string, sensitive: string -> bool): seq<Variable> {
    FlatMap(LineReader(sensitive), SplitLines(text))
  }

  method ParseEnvText(text: string, sensitive: string -> bool) returns (variables: seq<Variable>)
    ensures variables == ReadText(text, sensitive)
  {
    variables := [];
    var lines := SplitLines(text);
    for n := 0 to |lines|
      invariant variables == FlatMap(LineReader(sensitive), lines[..n])
    {
      FlatMapAppend(LineReader(sensitive), lines, n);
      var line := Trim(lines[n]);
      if line == "" || line[0] == '#' {
        continue;
      }
      var normalized := StripExport(line);
      var eq := Find(normalized, "=");
      if eq == -1 {
        continue;
      }
      var key := Trim(normalized[..eq]);
      if key == "" {
        continue;
      }
      variables := variables + [
        Variable(key, ParseEnvValue(Trim(normalized[eq + 1..])), true, sensitive(key))
      ];
    }
    assert lines[..|lines|] == lines;
  }

  function Exported(variables: seq<Variable>, includeSensitive: bool): seq<Variable> {
    if variables == [] then []
    else
      var item := variables[0];
      (if item.enabled && !Blank(item.key) && (includeSensitive || !item.sensitive) then [item] else [])
      + Exported(variables[1..], includeSensitive)
  }

  function PrintLine(item: Variable): string {
    Trim(item.key) + "=" + FormatEnvValue(item.value)
  }

  function PrintLines(variables: seq<Variable>): seq<string> {
    seq(|variables|, i requires 0 <= i < |variables| => PrintLine(variables[i]))
  }

  function ExportEnvText(variables: seq<Variable>, includeSensitive: bool): string {
    Join(PrintLines(Exported(variables, includeSensitive)), "\n")
  }

  /** A key that the parser can tell from a comment, an `export` and a value. */
  predicate GoodKey(key: string) {
    key != "" && Trimmed(key) && key[0] != '#' && '=' !in key && !HasExport(key)
  }

  predicate ReadableKey(item: Variable) {
    var key := Trim(item.key);
    GoodKey(key) && OneLine(key)
  }

  function ReadValue(value: string): string {
    if Bare(value) then value else Stage(value, 4)
  }

  function ReadBack(item: Variable, sensitive: string -> bool): Variable {
    var key := Trim(item.key);
    Variable(key, ReadValue(item.value), true, sensitive(key))
  }

  lemma {:induction false} EscapedIsOneLine(value: string)
    ensures OneLine(EscapeAll(value))
  {
    if value != "" {
      EscapedIsOneLine(value[1..]);
      var c := value[0];
      assert OneLine(Escape(c)) by {
        if OtherControl(c) {
          assert OneLine(ControlEscape(c));
        }
      }
    }
  }

  /** A printed value is one line without white space at its ends. */
  lemma FormattedIsOneLine(value: string)
    ensures var f := FormatEnvValue(value); f != "" && OneLine(f) && Trimmed(f)
  {
    EscapedIsOneLine(value);
    if Bare(value) {
      assert value[0] in value && value[|value| - 1] in value;
      assert IsSpace('\n');
    }
  }

  lemma KeyedLineIsTrimmed(key: string, value: string)
    requires key != "" && Trimmed(key) && OneLine(key) && value != "" && Trimmed(value) && OneLine(value)
    ensures var line := key + "=" + value;
      OneLine(line) && Trimmed(line) && line[0] == key[0] && Last(line) == Last(value)
  {
  }

  lemma PrintedLineIsTrimmed(item: Variable)
    requires OneLineKey(item)
    ensures var line := PrintLine(item);
      OneLine(line) && Trim(line) == line && line[0] == Trim(item.key)[0] && Last(line) != '\r'
  {
    FormattedIsOneLine(item.value);
    KeyedLineIsTrimmed(Trim(item.key), FormatEnvValue(item.value));
    TrimmedIsTrim(PrintLine(item));
  }

  lemma ExportIsInTheKey(key: string, line: string)
    requires |line| > |key| && line[..|key|] == key && line[|key|] == '='
    ensures HasExport(line) ==> HasExport(key)
  {
    if |key| > 6 {
      assert line[..6] == key[..6] && line[6] == key[6];
    } else if |key| < 6 < |line| {
      assert line[..6][|key|] == '=';
      assert forall i :: 0 <= i < 6 ==> "export"[i] != '=';
    }
  }

  lemma AssignmentReadsBack(key: string, value: string, sensitive: string -> bool)
    requires Trimmed(key) && key != "" && '=' !in key && Trimmed(value)
    ensures ReadAssignment(key + "=" + value, sensitive)
         == [Variable(key, ParseEnvValue(value), true, sensitive(key))]
  {
    var line := key + "=" + value;
    FindCharAfter(key, '=', value);
    assert line[..|key|] == key && line[|key| + 1..] == value;
    TrimmedIsTrim(key);
    TrimmedIsTrim(value);
  }

  lemma PlainLineIsAssignment(line: string, sensitive: string -> bool)
    requires Trim(line) == line && line != "" && line[0] != '#' && !HasExport(line)
    ensures ReadLine(line, sensitive) == ReadAssignment(line, sensitive)
  {
  }

  lemma ParsedIsReadValue(value: string)
    ensures ParseEnvValue(FormatEnvValue(value)) == ReadValue(value)
  {
    ParsedValue(value);
  }

  lemma KeyAndValueReadBack(key: string, value: string, sensitive: string -> bool)
    requires GoodKey(key) && value != "" && Trimmed(value)
    ensures ReadLine(key + "=" + value, sensitive) == [Variable(key, ParseEnvValue(value), true, sensitive(key))]
  {
    var line := key + "=" + value;
    assert line[0] == key[0] && line[|line| - 1] == value[|value| - 1];
    TrimmedIsTrim(line);
    ExportIsInTheKey(key, line);
    PlainLineIsAssignment(line, sensitive);
    AssignmentReadsBack(key, value, sensitive);
  }

  lemma PrintedLineReadsBack(item: Variable, sensitive: string -> bool)
    requires ReadableKey(item)
    ensures ReadLine(PrintLine(item), sensitive) == [ReadBack(item, sensitive)]
  {
    FormattedIsOneLine(item.value);
    KeyAndValueReadBack(Trim(item.key), FormatEnvValue(item.value), sensitive);
    ParsedIsReadValue(item.value);
  }

  predicate OneLineKey(item: Variable) {
    Trim(item.key) != "" && OneLine(Trim(item.key))
  }

  lemma SplitPrintedLines(items: seq<Variable>)
    requires items != [] && forall v <- items :: OneLineKey(v)
    ensures SplitLines(Join(PrintLines(items), "\n")) == PrintLines(items)
  {
    var lines := PrintLines(items);
    forall l | l in lines
      ensures OneLine(l) && l != "" && Last(l) != '\r'
    {
      var i :| 0 <= i < |lines| && lines[i] == l;
      assert items[i] in items;
      PrintedLineIsTrimmed(items[i]);
    }
    SplitJoinedLines(lines);
  }

  function ReadBackAll(items: seq<Variable>, sensitive: string -> bool): seq<Variable> {
    seq(|items|, i requires 0 <= i < |items| => ReadBack(items[i], sensitive))
  }

  lemma PrintedLinesReadBack(items: seq<Variable>, sensitive: string -> bool)
    requires forall v <- items :: ReadableKey(v)
    ensures FlatMap(LineReader(sensitive), PrintLines(items)) == ReadBackAll(items, sensitive)
  {
    forall i | 0 <= i < |items|
      ensures LineReader(sensitive)(PrintLines(items)[i]) == [ReadBackAll(items, sensitive)[i]]
    {
      assert items[i] in items;
      PrintedLineReadsBack(items[i], sensitive);
    }
    FlatMapSingles(LineReader(sensitive), PrintLines(items), ReadBackAll(items, sensitive));
  }

  /** What a printed file with readable keys is read as: the exported variables in order, their keys trimmed. */
  lemma ReadableTextReadsBack(variables: seq<Variable>, includeSensitive: bool, sensitive: string -> bool)
    requires forall v <- Exported(variables, includeSensitive) :: ReadableKey(v)
    ensures ReadText(ExportEnvText(variables, includeSensitive), sensitive)
         == ReadBackAll(Exported(variables, includeSensitive), sensitive)
  {
    var items := Exported(variables, includeSensitive);
    if items == [] {
      NoLinesReadBack(sensitive);
    } else {
      SplitPrintedLines(items);
      PrintedLinesReadBack(items, sensitive);
    }
  }

  lemma NoLineIsRead(sensitive: string -> bool)
    ensures ReadLine("", sensitive) == []
  {
  }

  lemma NoLinesReadBack(sensitive: string -> bool)
    ensures ReadText("", sensitive) == []
  {
    SplitOneLine("");
    NoLineIsRead(sensitive);
    FlatMapOne(LineReader(sensitive), "");
    assert SplitLines("") == [""];
  }
}
