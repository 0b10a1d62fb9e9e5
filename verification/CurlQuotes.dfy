/**
 Bodies with single quotes. The shell's way of writing one, to end the quoted text, escape the quote and start again, is
 read by the tokeniser as text of its own: whatever such a body is split into, none of the tokens is the body.
 */
module CurlQuotes {
  import opened Seqs
  import opened JsText
  import opened Curl

  /** The tokens of the quoted body and what comes back of it. */
  function BodyTokens(body: string): seq<string> {
    StripAll(Matches(JoinLines(ShellQuote(body))))
  }

  /** What is printed for a single quote, with the text after it. */
  function Group(x: string): string {
    ['\''] + (['\\'] + (['\''] + (['\''] + x)))
  }

  /** The printed text with what comes after it. */
  function Quoting(d: string, end: string): string {
    if d == "" then end
    else if d[0] == '\'' then Group(Quoting(d[1..], end))
    else [d[0]] + Quoting(d[1..], end)
  }

  /** The printed text from inside the quotes up to the last one. */
  function Inside(d: string): string {
    Quoting(d, ['\''])
  }

  /** How many characters are no single quotes. */
  function Others(s: string): nat {
    if s == "" then 0 else (if s[0] == '\'' then 0 else 1) + Others(s[1..])
  }

  // Quoting, one character or one part at a time.

  lemma Cons(s: string)
    requires s != ""
    ensures s == [s[0]] + s[1..]
  {
  }

  lemma {:induction false} QuotingIs(d: string, end: string)
    ensures Quoting(d, end) == QuoteQuotes(d) + end
  {
    if d != "" {
      QuotingIs(d[1..], end);
      if d[0] == '\'' {
        GroupConcat(QuoteQuotes(d[1..]), end);
      } else {
        ConcatAssociates([d[0]], QuoteQuotes(d[1..]), end);
      }
    }
  }

  lemma GroupConcat(x: string, end: string)
    ensures Group(x + end) == (['\'', '\\', '\'', '\''] + x) + end
  {
  }

  lemma {:induction false} QuotingConcat(a: string, b: string, end: string)
    ensures Quoting(a + b, end) == Quoting(a, Quoting(b, end))
  {
    if a == "" {
      assert a + b == b;
    } else {
      assert (a + b)[0] == a[0] && (a + b)[1..] == a[1..] + b;
      QuotingConcat(a[1..], b, end);
    }
  }

  lemma {:induction false} QuotingUnquoted(s: string, end: string)
    requires '\'' !in s
    ensures Quoting(s, end) == s + end
  {
    if s == "" {
      assert s + end == end;
    } else {
      assert s[0] in s && forall c <- s[1..] :: c in s;
      QuotingUnquoted(s[1..], end);
      Cons(s);
      ConcatAssociates([s[0]], s[1..], end);
    }
  }

  lemma OthersCons(c: char, s: string)
    ensures Others([c] + s) == (if c == '\'' then 0 else 1) + Others(s)
  {
    assert ([c] + s)[1..] == s;
  }

  lemma {:induction false} OthersConcat(a: string, b: string)
    ensures Others(a + b) == Others(a) + Others(b)
  {
    if a == "" {
      assert a + b == b;
    } else {
      assert (a + b)[0] == a[0] && (a + b)[1..] == a[1..] + b;
      OthersConcat(a[1..], b);
    }
  }

  lemma {:induction false} OthersUnquoted(s: string)
    requires '\'' !in s
    ensures Others(s) == |s|
  {
    if s != "" {
      assert s[0] in s && forall c <- s[1..] :: c in s;
      OthersUnquoted(s[1..]);
    }
  }

  lemma OthersBehind(d: string, k: nat)
    requires k <= |d|
    ensures Others(d[k..]) <= Others(d)
  {
    assert d == d[..k] + d[k..];
    OthersConcat(d[..k], d[k..]);
  }

  // Line continuations.

  predicate LineBreak(s: string) {
    s != "" && (s[0] == '\n' || (|s| > 1 && s[0] == '\r' && s[1] == '\n'))
  }

  lemma JoinChar(c: char, s: string)
    requires c != '\\' || !LineBreak(s)
    ensures JoinLines([c] + s) == [c] + JoinLines(s)
  {
    assert ([c] + s)[1..] == s;
  }

  lemma JoinPair(s: string)
    ensures JoinLines(['\\'] + (['\n'] + s)) == [' '] + JoinLines(s)
  {
    assert (['\\'] + (['\n'] + s))[2..] == s;
  }

  lemma JoinTriple(s: string)
    ensures JoinLines(['\\'] + (['\r'] + (['\n'] + s))) == [' '] + JoinLines(s)
  {
    assert (['\\'] + (['\r'] + (['\n'] + s)))[3..] == s;
  }

  lemma GroupJoins(s: string)
    ensures JoinLines(Group(s)) == Group(JoinLines(s))
  {
    JoinChar('\'', s);
    JoinChar('\'', ['\''] + s);
    JoinChar('\\', ['\''] + (['\''] + s));
    JoinChar('\'', ['\\'] + (['\''] + (['\''] + s)));
  }

  lemma QuotingCons(c: char, d: string, end: string)
    ensures Quoting([c] + d, end) == if c == '\'' then Group(Quoting(d, end)) else [c] + Quoting(d, end)
  {
    assert ([c] + d)[1..] == d;
  }

  lemma BreaksInside(d: string)
    ensures LineBreak(Inside(d)) <==> LineBreak(d)
  {
    if d != "" {
      Cons(d);
      QuotingCons(d[0], d[1..], ['\'']);
      if |d| > 1 {
        Cons(d[1..]);
        QuotingCons(d[1], d[1..][1..], ['\'']);
      }
    }
  }

  lemma JoinedCharInside(d: string)
    requires d != "" && (d[0] != '\\' || !LineBreak(d[1..]))
    requires JoinLines(Inside(d[1..])) == Inside(JoinLines(d[1..]))
    ensures JoinLines(Inside(d)) == Inside(JoinLines(d))
  {
    Cons(d);
    JoinChar(d[0], d[1..]);
    QuotingCons(d[0], JoinLines(d[1..]), ['\'']);
    if d[0] == '\'' {
      GroupJoins(Inside(d[1..]));
    } else {
      BreaksInside(d[1..]);
      JoinChar(d[0], Inside(d[1..]));
    }
  }

  lemma InsideBreak(s: string)
    ensures Inside(['\\'] + (['\n'] + s)) == ['\\'] + (['\n'] + Inside(s))
  {
    QuotingCons('\n', s, ['\'']);
    QuotingCons('\\', ['\n'] + s, ['\'']);
  }

  lemma JoinedPairInside(s: string)
    requires JoinLines(Inside(s)) == Inside(JoinLines(s))
    ensures var d := ['\\'] + (['\n'] + s); JoinLines(Inside(d)) == Inside(JoinLines(d))
  {
    InsideBreak(s);
    JoinPair(s);
    JoinPair(Inside(s));
    QuotingCons(' ', JoinLines(s), ['\'']);
  }

  lemma InsideTriple(s: string)
    ensures Inside(['\\'] + (['\r'] + (['\n'] + s))) == ['\\'] + (['\r'] + (['\n'] + Inside(s)))
  {
    QuotingCons('\n', s, ['\'']);
    QuotingCons('\r', ['\n'] + s, ['\'']);
    QuotingCons('\\', ['\r'] + (['\n'] + s), ['\'']);
  }

  lemma JoinedTripleInside(s: string)
    requires JoinLines(Inside(s)) == Inside(JoinLines(s))
    ensures var d := ['\\'] + (['\r'] + (['\n'] + s)); JoinLines(Inside(d)) == Inside(JoinLines(d))
  {
    InsideTriple(s);
    JoinTriple(s);
    JoinTriple(Inside(s));
    QuotingCons(' ', JoinLines(s), ['\'']);
  }

  lemma ContinuationFirst(d: string)
    requires d != "" && d[0] == '\\' && LineBreak(d[1..])
    ensures d[1] == '\n' ==> d == ['\\'] + (['\n'] + d[2..])
    ensures d[1] != '\n' ==> |d| > 2 && d == ['\\'] + (['\r'] + (['\n'] + d[3..]))
  {
  }

  /** Continuations are joined inside the quotes as they are in the body. */
  lemma {:induction false} InsideJoins(d: string)
    ensures JoinLines(Inside(d)) == Inside(JoinLines(d))
    decreases |d|
  {
    if d == "" {
      JoinChar('\'', "");
      assert ['\''] + "" == ['\''];
    } else if d[0] != '\\' || !LineBreak(d[1..]) {
      InsideJoins(d[1..]);
      JoinedCharInside(d);
    } else {
      ContinuationFirst(d);
      if d[1] == '\n' {
        InsideJoins(d[2..]);
        JoinedPairInside(d[2..]);
      } else {
        InsideJoins(d[3..]);
        JoinedTripleInside(d[3..]);
      }
    }
  }

  lemma {:induction false} JoiningDropsOthers(d: string)
    ensures Others(JoinLines(d)) <= Others(d)
    decreases |d|
  {
    if d == "" {
    } else if d[0] != '\\' || !LineBreak(d[1..]) {
      Cons(d);
      JoinChar(d[0], d[1..]);
      OthersCons(d[0], JoinLines(d[1..]));
      JoiningDropsOthers(d[1..]);
    } else {
      var k := if d[1] == '\n' then 2 else 3;
      OthersBehind(d[1..], k - 1);
      OthersCons(' ', JoinLines(d[k..]));
      JoiningDropsOthers(d[k..]);
    }
  }

  lemma QuotedJoins(body: string)
    ensures JoinLines(ShellQuote(body)) == ['\''] + Inside(JoinLines(body))
  {
    QuotingIs(body, ['\'']);
    ConcatAssociates(['\''], QuoteQuotes(body), ['\'']);
    JoinChar('\'', Inside(body));
    InsideJoins(body);
  }

  // Where a quoted token closes.

  function After(n: nat, closing: nat): nat { if closing == 0 then 0 else n + closing }

  lemma ClosingChar(c: char, s: string, q: char)
    requires c != q && c != '\\'
    ensures Closing([c] + s, q) == After(1, Closing(s, q))
  {
    assert ([c] + s)[1..] == s;
  }

  lemma ClosingPair(c: char, s: string, q: char)
    requires q != '\\'
    ensures Closing(['\\'] + ([c] + s), q) == if LineTerminator(c) then 0 else After(2, Closing(s, q))
  {
    assert (['\\'] + ([c] + s))[2..] == s;
  }

  /** A printed single quote on the way to a double quote. */
  lemma GroupBeforeDouble(x: string)
    ensures Closing(Group(x), '"') == After(4, Closing(x, '"'))
  {
    ClosingChar('\'', x, '"');
    ClosingPair('\'', ['\''] + x, '"');
    ClosingChar('\'', ['\\'] + (['\''] + (['\''] + x)), '"');
  }

  lemma EscapedGroupBeforeDouble(x: string)
    ensures Closing(['\\'] + Group(x), '"') == After(5, Closing(x, '"'))
  {
    ClosingChar('\'', x, '"');
    ClosingPair('\'', ['\''] + x, '"');
    ClosingPair('\'', ['\\'] + (['\''] + (['\''] + x)), '"');
  }

  /** A single quote after a backslash does not close, the last one of its group does. */
  lemma EscapedGroupBeforeSingle(x: string)
    ensures Closing(['\\'] + Group(x), '\'') == 5
  {
    ClosingPair('\'', ['\''] + x, '\'');
    ClosingPair('\'', ['\\'] + (['\''] + (['\''] + x)), '\'');
  }

  /** The text after a backslash and the character it takes along. */
  lemma InsidePair(d: string)
    requires |d| > 1 && d[0] == '\\'
    ensures Inside(d) == ['\\'] + (if d[1] == '\'' then Group(Inside(d[2..])) else [d[1]] + Inside(d[2..]))
  {
    var s := d[2..];
    assert d == ['\\'] + ([d[1]] + s);
    QuotingCons('\\', [d[1]] + s, ['\'']);
    QuotingCons(d[1], s, ['\'']);
  }

  /** No closing quote comes: the end, or a backslash that takes nothing along. */
  predicate Stuck(d: string) {
    d == "" || (d[0] == '\\' && (|d| == 1 || LineTerminator(d[1])))
  }

  lemma StuckDoesNotClose(d: string, q: char)
    requires Stuck(d) && q != '\\' && (d == "" ==> q != '\'')
    ensures Closing(Inside(d), q) == 0
  {
    if d == "" {
      ClosingChar('\'', "", q);
      assert ['\''] + "" == ['\''];
    } else if |d| == 1 {
      assert d == ['\\'] + "" && ['\''] + "" == ['\''];
      QuotingCons('\\', "", ['\'']);
      ClosingPair('\'', "", q);
    } else {
      InsidePair(d);
      ClosingPair(d[1], Inside(d[2..]), q);
    }
  }

  // A token in double quotes.

  function PrintedLength(y: string): nat {
    if y == "" then 0 else (if y[0] == '\'' then 4 else 1) + PrintedLength(y[1..])
  }

  lemma PrintedLengthCons(c: char, y: string)
    ensures PrintedLength([c] + y) == (if c == '\'' then 4 else 1) + PrintedLength(y)
  {
    assert ([c] + y)[1..] == y;
  }

  lemma {:induction false} PrintedLengthIs(y: string)
    ensures PrintedLength(y) == |QuoteQuotes(y)|
  {
    if y != "" {
      PrintedLengthIs(y[1..]);
    }
  }

  lemma CharBeforeDouble(d: string)
    requires d != "" && d[0] != '"' && d[0] != '\\'
    ensures Closing(Inside(d), '"') == After(if d[0] == '\'' then 4 else 1, Closing(Inside(d[1..]), '"'))
  {
    if d[0] == '\'' {
      GroupBeforeDouble(Inside(d[1..]));
    } else {
      ClosingChar(d[0], Inside(d[1..]), '"');
    }
  }

  lemma PairBeforeDouble(d: string)
    requires |d| > 1 && d[0] == '\\' && !LineTerminator(d[1])
    ensures Closing(Inside(d), '"') == After(if d[1] == '\'' then 5 else 2, Closing(Inside(d[2..]), '"'))
  {
    InsidePair(d);
    if d[1] == '\'' {
      EscapedGroupBeforeDouble(Inside(d[2..]));
    } else {
      ClosingPair(d[1], Inside(d[2..]), '"');
    }
  }

  /** A double quote is closed by a double quote of the body. */
  lemma {:induction false} ClosesAtDouble(d: string) returns (y: string, z: string)
    requires Closing(Inside(d), '"') > 0
    ensures d == y + (['"'] + z) && Closing(Inside(d), '"') == PrintedLength(y) + 1
    decreases |d|
  {
    if Stuck(d) {
      StuckDoesNotClose(d, '"');
      assert false;
    } else if d[0] == '"' {
      Cons(d);
      y, z := "", d[1..];
      assert y + (['"'] + z) == ['"'] + z;
    } else if d[0] == '\\' {
      PairBeforeDouble(d);
      var rest;
      rest, z := ClosesAtDouble(d[2..]);
      y := [d[0]] + ([d[1]] + rest);
      PrintedLengthCons(d[1], rest);
      PrintedLengthCons(d[0], [d[1]] + rest);
      assert d == [d[0]] + ([d[1]] + d[2..]);
      ConcatAssociates([d[1]], rest, ['"'] + z);
      ConcatAssociates([d[0]], [d[1]] + rest, ['"'] + z);
    } else {
      CharBeforeDouble(d);
      var rest;
      rest, z := ClosesAtDouble(d[1..]);
      y := [d[0]] + rest;
      PrintedLengthCons(d[0], rest);
      Cons(d);
      ConcatAssociates([d[0]], rest, ['"'] + z);
    }
  }

  // A token in single quotes.

  /** The body up to where the quotes close: to its next single quote, or past it when a backslash comes before. */
  predicate ClosesAfter(p: string, tail: string, closing: nat) {
    && '\'' !in p && (tail == "" || tail[0] == '\'')
    && (closing == |p| + 1 || (closing == |p| + 4 && tail != "" && p != "" && Last(p) == '\\'))
  }

  lemma ClosesOneLater(c: char, p: string, tail: string, closing: nat)
    requires ClosesAfter(p, tail, closing) && c != '\''
    ensures ClosesAfter([c] + p, tail, closing + 1)
  {
    if p != "" {
      assert Last([c] + p) == Last(p);
    }
  }

  lemma {:induction false} ClosesAtSingle(d: string) returns (p: string, tail: string)
    requires Closing(Inside(d), '\'') > 0
    ensures d == p + tail && ClosesAfter(p, tail, Closing(Inside(d), '\''))
    decreases |d|
  {
    if d == "" || d[0] == '\'' {
      p, tail := "", d;
    } else if Stuck(d) {
      StuckDoesNotClose(d, '\'');
      assert false;
    } else if d[0] == '\\' && d[1] == '\'' {
      InsidePair(d);
      EscapedGroupBeforeSingle(Inside(d[2..]));
      p, tail := ['\\'], d[1..];
    } else if d[0] == '\\' {
      InsidePair(d);
      ClosingPair(d[1], Inside(d[2..]), '\'');
      var rest;
      rest, tail := ClosesAtSingle(d[2..]);
      p := [d[0]] + ([d[1]] + rest);
      ClosesOneLater(d[1], rest, tail, Closing(Inside(d[2..]), '\''));
      ClosesOneLater(d[0], [d[1]] + rest, tail, Closing(Inside(d[2..]), '\'') + 1);
      assert d == [d[0]] + ([d[1]] + d[2..]);
      ConcatAssociates([d[1]], rest, tail);
      ConcatAssociates([d[0]], [d[1]] + rest, tail);
    } else {
      ClosingChar(d[0], Inside(d[1..]), '\'');
      var rest;
      rest, tail := ClosesAtSingle(d[1..]);
      p := [d[0]] + rest;
      ClosesOneLater(d[0], rest, tail, Closing(Inside(d[1..]), '\''));
      Cons(d);
      ConcatAssociates([d[0]], rest, tail);
    }
  }

  // What the quotes leave of a token.

  function Unescaped(s: string): string {
    Unescape(Unescape(s, '"', '"'), '\'', '\'')
  }

  lemma UnescapePair(s: string, letter: char)
    ensures Unescape(['\\'] + ([letter] + s), letter, letter) == [letter] + Unescape(s, letter, letter)
  {
    assert (['\\'] + ([letter] + s))[2..] == s;
  }

  lemma UnescapeChar(c: char, s: string, letter: char)
    requires c != '\\' || s == "" || s[0] != letter
    ensures Unescape([c] + s, letter, letter) == [c] + Unescape(s, letter, letter)
  {
    assert ([c] + s)[1..] == s;
  }

  predicate EscapeFirst(s: string, letter: char) {
    |s| > 1 && s[0] == '\\' && s[1] == letter
  }

  lemma UnescapePairFirst(a: string, b: string, letter: char)
    requires EscapeFirst(a, letter)
    requires Unescape(a[2..] + b, letter, letter) == Unescape(a[2..], letter, letter) + Unescape(b, letter, letter)
    ensures Unescape(a + b, letter, letter) == Unescape(a, letter, letter) + Unescape(b, letter, letter)
  {
    var s := a[2..];
    assert a == ['\\'] + ([letter] + s) && a + b == ['\\'] + ([letter] + (s + b));
    UnescapePair(s, letter);
    UnescapePair(s + b, letter);
    ConcatAssociates([letter], Unescape(s, letter, letter), Unescape(b, letter, letter));
  }

  lemma UnescapeCharFirst(a: string, b: string, letter: char)
    requires a != "" && !EscapeFirst(a, letter) && b != "" && b[0] != letter
    requires Unescape(a[1..] + b, letter, letter) == Unescape(a[1..], letter, letter) + Unescape(b, letter, letter)
    ensures Unescape(a + b, letter, letter) == Unescape(a, letter, letter) + Unescape(b, letter, letter)
  {
    var c, s := a[0], a[1..];
    Cons(a);
    ConcatAssociates([c], s, b);
    assert (s + b)[0] == if s == "" then b[0] else a[1];
    UnescapeChar(c, s, letter);
    UnescapeChar(c, s + b, letter);
    ConcatAssociates([c], Unescape(s, letter, letter), Unescape(b, letter, letter));
  }

  lemma {:induction false} UnescapeConcat(a: string, b: string, letter: char)
    requires b != "" && b[0] != letter
    ensures Unescape(a + b, letter, letter) == Unescape(a, letter, letter) + Unescape(b, letter, letter)
    decreases |a|
  {
    if a == "" {
      assert a + b == b;
    } else if EscapeFirst(a, letter) {
      UnescapeConcat(a[2..], b, letter);
      UnescapePairFirst(a, b, letter);
    } else {
      UnescapeConcat(a[1..], b, letter);
      UnescapeCharFirst(a, b, letter);
    }
  }

  lemma {:induction false} UnescapeDropsOthers(s: string, letter: char)
    ensures Others(Unescape(s, letter, letter)) <= Others(s)
    decreases |s|
  {
    if s == "" {
    } else if EscapeFirst(s, letter) {
      UnescapeDropsOthers(s[2..], letter);
      OthersCons(letter, Unescape(s[2..], letter, letter));
      assert s[1..][1..] == s[2..];
    } else {
      UnescapeDropsOthers(s[1..], letter);
      OthersCons(s[0], Unescape(s[1..], letter, letter));
    }
  }

  lemma GroupStaysInDouble(x: string)
    ensures Unescape(Group(x), '"', '"') == Group(Unescape(x, '"', '"'))
  {
    UnescapeChar('\'', x, '"');
    UnescapeChar('\'', ['\''] + x, '"');
    UnescapeChar('\\', ['\''] + (['\''] + x), '"');
    UnescapeChar('\'', ['\\'] + (['\''] + (['\''] + x)), '"');
  }

  lemma QuotingStarts(y: string)
    ensures y == "" ==> Quoting(y, "") == ""
    ensures y != "" ==> Quoting(y, "") != "" && Quoting(y, "")[0] == y[0]
  {
  }

  lemma UnescapeQuotedPair(y: string)
    requires EscapeFirst(y, '"')
    requires Unescape(Quoting(y[2..], ""), '"', '"') == Quoting(Unescape(y[2..], '"', '"'), "")
    ensures Unescape(Quoting(y, ""), '"', '"') == Quoting(Unescape(y, '"', '"'), "")
  {
    var s := y[2..];
    assert y == ['\\'] + (['"'] + s);
    QuotingCons('\\', ['"'] + s, "");
    QuotingCons('"', s, "");
    UnescapePair(Quoting(s, ""), '"');
    UnescapePair(s, '"');
    QuotingCons('"', Unescape(s, '"', '"'), "");
  }

  lemma UnescapeQuotedChar(y: string)
    requires y != "" && !EscapeFirst(y, '"')
    requires Unescape(Quoting(y[1..], ""), '"', '"') == Quoting(Unescape(y[1..], '"', '"'), "")
    ensures Unescape(Quoting(y, ""), '"', '"') == Quoting(Unescape(y, '"', '"'), "")
  {
    var c, s := y[0], y[1..];
    Cons(y);
    UnescapeChar(c, s, '"');
    QuotingCons(c, Unescape(s, '"', '"'), "");
    if c == '\'' {
      GroupStaysInDouble(Quoting(s, ""));
    } else {
      QuotingStarts(s);
      UnescapeChar(c, Quoting(s, ""), '"');
    }
  }

  /** Escaped double quotes are the same before and after the single quotes are printed. */
  lemma {:induction false} UnescapeQuoted(y: string)
    ensures Unescape(Quoting(y, ""), '"', '"') == Quoting(Unescape(y, '"', '"'), "")
    decreases |y|
  {
    if y == "" {
    } else if EscapeFirst(y, '"') {
      UnescapeQuoted(y[2..]);
      UnescapeQuotedPair(y);
    } else {
      UnescapeQuoted(y[1..]);
      UnescapeQuotedChar(y);
    }
  }

  lemma GroupUnescapes(x: string)
    ensures Others(Unescape(Group(x), '\'', '\'')) == Others(Unescape(x, '\'', '\''))
  {
    var u := Unescape(x, '\'', '\'');
    UnescapeChar('\'', x, '\'');
    UnescapePair(['\''] + x, '\'');
    UnescapeChar('\'', ['\\'] + (['\''] + (['\''] + x)), '\'');
    OthersCons('\'', u);
    OthersCons('\'', ['\''] + u);
    OthersCons('\'', ['\''] + (['\''] + u));
  }

  lemma EscapedGroupUnescapes(x: string)
    ensures Others(Unescape(['\\'] + Group(x), '\'', '\'')) == Others(Unescape(x, '\'', '\''))
  {
    var u := Unescape(x, '\'', '\'');
    UnescapeChar('\'', x, '\'');
    UnescapePair(['\''] + x, '\'');
    UnescapePair(['\\'] + (['\''] + (['\''] + x)), '\'');
    OthersCons('\'', u);
    OthersCons('\'', ['\''] + u);
    OthersCons('\'', ['\''] + (['\''] + u));
  }

  lemma {:induction false} UnescapedGroups(w: string)
    ensures Others(Unescape(Quoting(w, ""), '\'', '\'')) <= Others(w)
    decreases |w|
  {
    if w == "" {
    } else if w[0] == '\'' {
      UnescapedGroups(w[1..]);
      GroupUnescapes(Quoting(w[1..], ""));
    } else if EscapeFirst(w, '\'') {
      UnescapedGroups(w[2..]);
      assert w == ['\\'] + (['\''] + w[2..]);
      QuotingCons('\\', ['\''] + w[2..], "");
      QuotingCons('\'', w[2..], "");
      EscapedGroupUnescapes(Quoting(w[2..], ""));
      OthersBehind(w, 2);
    } else {
      UnescapedGroups(w[1..]);
      QuotingStarts(w[1..]);
      UnescapeChar(w[0], Quoting(w[1..], ""), '\'');
      OthersCons(w[0], Unescape(Quoting(w[1..], ""), '\'', '\''));
    }
  }

  /** What is left of printed text has no more characters besides its quotes than the text. */
  lemma QuotedUnescapes(y: string)
    ensures Others(Unescaped(QuoteQuotes(y))) <= Others(y)
  {
    QuotingIs(y, "");
    assert QuoteQuotes(y) + "" == QuoteQuotes(y);
    UnescapeQuoted(y);
    UnescapedGroups(Unescape(y, '"', '"'));
    UnescapeDropsOthers(y, '"');
  }

  lemma EndUnescapes()
    ensures var end := ['\\'] + (['\''] + (['\\'] + (['\''] + "")));
      Unescape(end, '"', '"') == end && Unescape(end, '\'', '\'') == ['\''] + (['\''] + "")
  {
    UnescapePair("", '\'');
    UnescapePair(['\\'] + (['\''] + ""), '\'');
    UnescapeChar('\'', "", '"');
    UnescapeChar('\\', ['\''] + "", '"');
    UnescapeChar('\'', ['\\'] + (['\''] + ""), '"');
    UnescapeChar('\\', ['\''] + (['\\'] + (['\''] + "")), '"');
  }

  /** Text that closes past a backslash loses that backslash. */
  lemma EscapedEndUnescapes(front: string)
    ensures Others(Unescaped(front + (['\\'] + (['\''] + (['\\'] + (['\''] + "")))))) <= Others(front)
  {
    var end := ['\\'] + (['\''] + (['\\'] + (['\''] + "")));
    EndUnescapes();
    UnescapeConcat(front, end, '"');
    UnescapeConcat(Unescape(front, '"', '"'), end, '\'');
    UnescapeDropsOthers(front, '"');
    UnescapeDropsOthers(Unescape(front, '"', '"'), '\'');
    OthersConcat(Unescaped(front), ['\''] + (['\''] + ""));
    OthersCons('\'', "");
    OthersCons('\'', ['\''] + "");
  }

  // No token is the body.

  /** No value of a body that has a single quote and `n` other characters, but for the quote alone. */
  predicate Harmless(value: string, n: nat) {
    '\'' !in value || Others(value) < n || value == ['\'']
  }

  predicate AllHarmless(tokens: seq<string>, n: nat) {
    forall i :: 0 <= i < |tokens| ==> Harmless(StripQuotes(tokens[i]), n)
  }

  lemma PassedOver(t: string, n: nat)
    requires t != "" && MatchLength(t) == 0 && AllHarmless(Matches(t[1..]), n)
    ensures AllHarmless(Matches(t), n)
  {
  }

  /** The first match and the text after it. */
  lemma FirstAndRest(token: string, rest: string, n: nat)
    requires token != "" && MatchLength(token + rest) == |token|
    requires Harmless(StripQuotes(token), n) && AllHarmless(Matches(rest), n)
    ensures AllHarmless(Matches(token + rest), n)
  {
    var t := token + rest;
    assert t[..|token|] == token && t[|token|..] == rest;
    assert Matches(t) == [token] + Matches(rest);
  }

  lemma StripQuoted(q: char, inner: string)
    requires q == '"' || q == '\''
    ensures StripQuotes([q] + (inner + [q])) == Unescaped(inner)
  {
    var token := [q] + (inner + [q]);
    assert token[1..|token| - 1] == inner && token[0] == q && Last(token) == q;
  }

  lemma WordMatchLength(s: string)
    requires s != "" && s[0] != '"' && s[0] != '\''
    ensures MatchLength(s) == WordLength(s)
  {
  }

  lemma QuotedMatchLength(q: char, s: string)
    requires q == '"' || q == '\''
    ensures MatchLength([q] + s) == After(1, Closing(s, q))
  {
    assert ([q] + s)[1..] == s;
  }

  lemma WordCons(c: char, s: string)
    ensures WordLength([c] + s) == if WordChar(c) then 1 + WordLength(s) else 0
  {
    assert ([c] + s)[1..] == s;
  }

  /** The first word of the body is the first word of the printed text. */
  lemma {:induction false} WordInside(d: string) returns (w: string, rest: string)
    ensures d == w + rest && Inside(d) == w + Inside(rest) && WordLength(Inside(d)) == |w| && '\'' !in w
  {
    if d != "" && WordChar(d[0]) {
      var more;
      more, rest := WordInside(d[1..]);
      w := [d[0]] + more;
      WordCons(d[0], Inside(d[1..]));
      Cons(d);
      ConcatAssociates([d[0]], more, rest);
      ConcatAssociates([d[0]], more, Inside(rest));
    } else {
      w, rest := "", d;
      assert w + rest == d && w + Inside(rest) == Inside(d);
    }
  }

  lemma InsideStarts(d: string)
    ensures Inside(d) != "" && Inside(d)[0] == if d == "" then '\'' else d[0]
  {
  }

  lemma WordIsUnstripped(w: string)
    requires w != "" && w[0] != '"' && w[0] != '\''
    ensures StripQuotes(w) == w
  {
  }

  lemma {:induction false} WordFirst(d: string, n: nat)
    requires d != "" && d[0] != '"' && d[0] != '\'' && Others(d) <= n
    ensures AllHarmless(Matches(Inside(d)), n)
    decreases |d|, 0
  {
    InsideStarts(d);
    WordMatchLength(Inside(d));
    var w, rest := WordInside(d);
    if w == "" {
      OthersBehind(d, 1);
      InsideIsHarmless(d[1..], n);
      PassedOver(Inside(d), n);
    } else {
      assert w[0] == d[0];
      WordIsUnstripped(w);
      OthersConcat(w, rest);
      InsideIsHarmless(rest, n);
      FirstAndRest(w, Inside(rest), n);
    }
  }

  /** The group a single quote is printed as is a token of its own where no text before it is quoted. */
  lemma GroupStrips()
    ensures StripQuotes(Group("")) == ['\'']
  {
    var inner := ['\\'] + (['\''] + "");
    UnescapeChar('\'', "", '"');
    UnescapeChar('\\', ['\''] + "", '"');
    UnescapePair("", '\'');
    StripQuoted('\'', inner);
    assert ['\''] + (inner + ['\'']) == Group("");
  }

  lemma GroupMatches(x: string)
    ensures MatchLength(Group(x)) == 4 && Group(x) == Group("") + x && |Group("")| == 4
  {
    ClosingPair('\'', ['\''] + x, '\'');
    QuotedMatchLength('\'', ['\\'] + (['\''] + (['\''] + x)));
  }

  lemma {:induction false} QuoteFirst(d: string, n: nat)
    requires d != "" && d[0] == '\'' && Others(d) <= n
    ensures AllHarmless(Matches(Inside(d)), n)
    decreases |d|, 0
  {
    var x := Inside(d[1..]);
    GroupStrips();
    GroupMatches(x);
    InsideIsHarmless(d[1..], n);
    FirstAndRest(Group(""), x, n);
  }

  lemma OthersAroundDouble(y: string, z: string)
    ensures Others(['"'] + (y + (['"'] + z))) == Others(y) + Others(z) + 2
  {
    OthersCons('"', z);
    OthersConcat(y, ['"'] + z);
    OthersCons('"', y + (['"'] + z));
  }

  /** The text of a part in double quotes. */
  lemma InsideOfDouble(y: string, z: string)
    ensures Inside(['"'] + (y + (['"'] + z))) == (['"'] + (QuoteQuotes(y) + ['"'])) + Inside(z)
  {
    QuotingCons('"', y + (['"'] + z), ['\'']);
    QuotingConcat(y, ['"'] + z, ['\'']);
    QuotingCons('"', z, ['\'']);
    QuotingIs(y, ['"'] + Inside(z));
    ConcatAssociates(QuoteQuotes(y), ['"'], Inside(z));
    ConcatAssociates(['"'], QuoteQuotes(y) + ['"'], Inside(z));
  }

  /** Text in double quotes leaves fewer other characters than its part of the body has. */
  lemma DoubleIsHarmless(y: string, z: string, n: nat)
    requires Others(['"'] + (y + (['"'] + z))) <= n
    ensures Harmless(StripQuotes(['"'] + (QuoteQuotes(y) + ['"'])), n) && Others(z) <= n
  {
    OthersAroundDouble(y, z);
    StripQuoted('"', QuoteQuotes(y));
    QuotedUnescapes(y);
  }

  lemma {:induction false} DoubleFirst(d: string, n: nat)
    requires d != "" && d[0] == '"' && Others(d) <= n
    ensures AllHarmless(Matches(Inside(d)), n)
    decreases |d|, 0
  {
    InsideStarts(d);
    QuotedMatchLength('"', Inside(d[1..]));
    if Closing(Inside(d[1..]), '"') == 0 {
      OthersBehind(d, 1);
      InsideIsHarmless(d[1..], n);
      PassedOver(Inside(d), n);
    } else {
      var y, z := ClosesAtDouble(d[1..]);
      Cons(d);
      InsideOfDouble(y, z);
      PrintedLengthIs(y);
      DoubleIsHarmless(y, z, n);
      InsideIsHarmless(z, n);
      FirstAndRest(['"'] + (QuoteQuotes(y) + ['"']), Inside(z), n);
    }
  }

  lemma QuoteAloneMatchesNothing()
    ensures Matches(Inside("")) == []
  {
    assert Inside("") == ['\''] && ['\''][1..] == "";
    assert Matches(['\'']) == Matches("");
  }

  lemma {:induction false} InsideIsHarmless(d: string, n: nat)
    requires Others(d) <= n
    ensures AllHarmless(Matches(Inside(d)), n)
    decreases |d|, 1
  {
    if d == "" {
      QuoteAloneMatchesNothing();
    } else if d[0] == '\'' {
      QuoteFirst(d, n);
    } else if d[0] == '"' {
      DoubleFirst(d, n);
    } else {
      WordFirst(d, n);
    }
  }

  lemma EmptyQuotesMatch(rest: string)
    ensures MatchLength((['\''] + ("" + ['\''])) + rest) == 2
    ensures StripQuotes(['\''] + ("" + ['\''])) == ""
  {
    assert (['\''] + ("" + ['\''])) + rest == ['\''] + (['\''] + rest);
    QuotedMatchLength('\'', ['\''] + rest);
    StripQuoted('\'', "");
  }

  lemma LoneBackslashMatches(rest: string)
    requires rest != "" && rest[0] == '\''
    ensures MatchLength(['\\'] + rest) == 1
    ensures StripQuotes(['\\']) == ['\\']
  {
    WordCons('\\', rest);
    assert WordLength(rest) == 0;
  }

  /** What is printed after the quoted text before a single quote, with the text after it. */
  function Reopened(x: string): string {
    ['\\'] + ((['\''] + ("" + ['\''])) + x)
  }

  lemma ReopenedIsHarmless(x: string, n: nat)
    requires AllHarmless(Matches(x), n)
    ensures AllHarmless(Matches(Reopened(x)), n)
  {
    var empty := ['\''] + ("" + ['\'']);
    EmptyQuotesMatch(x);
    FirstAndRest(empty, x, n);
    LoneBackslashMatches(empty + x);
    FirstAndRest(['\\'], empty + x, n);
  }

  lemma {:induction false} UnescapeMakesNoQuote(s: string)
    requires '\'' !in s
    ensures '\'' !in Unescape(s, '"', '"')
    decreases |s|
  {
    if s != "" {
      assert s[0] in s;
      if EscapeFirst(s, '"') {
        assert forall c <- s[2..] :: c in s;
        UnescapeMakesNoQuote(s[2..]);
      } else {
        assert forall c <- s[1..] :: c in s;
        UnescapeMakesNoQuote(s[1..]);
      }
    }
  }

  lemma UnescapedStaysUnquoted(p: string)
    requires '\'' !in p
    ensures '\'' !in Unescaped(p)
  {
    UnescapeMakesNoQuote(p);
    var u := Unescape(p, '"', '"');
    assert forall i :: 0 <= i < |u| ==> u[i] in u;
    UnescapeKeeps(u, '\'', '\'');
  }

  lemma InsideSplit(p: string, tail: string)
    requires '\'' !in p
    ensures Inside(p + tail) == p + Inside(tail) && Others(p + tail) == |p| + Others(tail)
  {
    QuotingConcat(p, tail, ['\'']);
    QuotingUnquoted(p, Inside(tail));
    OthersConcat(p, tail);
    OthersUnquoted(p);
  }

  /** What follows the quoted text where the quotes close in time. */
  function AfterQuoted(tail: string): string
    requires tail == "" || tail[0] == '\''
  {
    if tail == "" then "" else Reopened(Inside(tail[1..]))
  }

  lemma ReopenedIs(x: string)
    ensures Group(x) == ['\''] + Reopened(x)
  {
    assert (['\''] + ("" + ['\''])) + x == ['\''] + (['\''] + x);
  }

  lemma AfterQuotedIs(p: string, tail: string)
    requires '\'' !in p && (tail == "" || tail[0] == '\'')
    ensures ['\''] + Inside(p + tail) == (['\''] + (p + ['\''])) + AfterQuoted(tail)
  {
    InsideSplit(p, tail);
    if tail == "" {
      assert ['\''] + AfterQuoted(tail) == ['\''];
    } else {
      ReopenedIs(Inside(tail[1..]));
    }
    ConcatAssociates(p, ['\''], AfterQuoted(tail));
    ConcatAssociates(['\''], p + ['\''], AfterQuoted(tail));
  }

  /** Quoted up to the end of the body or its next single quote. */
  lemma QuotedPartIsHarmless(p: string, tail: string, n: nat)
    requires '\'' !in p && (tail == "" || tail[0] == '\'') && Others(p + tail) <= n
    requires Closing(Inside(p + tail), '\'') == |p| + 1
    ensures AllHarmless(Matches(['\''] + Inside(p + tail)), n)
  {
    AfterQuotedIs(p, tail);
    QuotedMatchLength('\'', Inside(p + tail));
    StripQuoted('\'', p);
    UnescapedStaysUnquoted(p);
    if tail != "" {
      OthersConcat(p, tail);
      OthersBehind(tail, 1);
      InsideIsHarmless(tail[1..], n);
      ReopenedIsHarmless(Inside(tail[1..]), n);
    }
    FirstAndRest(['\''] + (p + ['\'']), AfterQuoted(tail), n);
  }

  lemma EscapedPartIs(front: string, tail: string)
    requires '\'' !in front && tail != "" && tail[0] == '\''
    ensures var end := ['\\'] + (['\''] + (['\\'] + (['\''] + "")));
      ['\''] + Inside((front + ['\\']) + tail) == (['\''] + ((front + end) + ['\''])) + Inside(tail[1..])
  {
    InsideSplit(front + ['\\'], tail);
  }

  /** Quoted past a single quote of the body that comes after a backslash. */
  lemma EscapedPartIsHarmless(front: string, tail: string, n: nat)
    requires '\'' !in front && tail != "" && tail[0] == '\'' && Others((front + ['\\']) + tail) <= n
    requires Closing(Inside((front + ['\\']) + tail), '\'') == |front| + 5
    ensures AllHarmless(Matches(['\''] + Inside((front + ['\\']) + tail)), n)
  {
    var inner := front + (['\\'] + (['\''] + (['\\'] + (['\''] + ""))));
    EscapedPartIs(front, tail);
    QuotedMatchLength('\'', Inside((front + ['\\']) + tail));
    StripQuoted('\'', inner);
    EscapedEndUnescapes(front);
    OthersConcat(front + ['\\'], tail);
    OthersConcat(front, ['\\']);
    assert ['\\'][1..] == "";
    OthersBehind(tail, 1);
    InsideIsHarmless(tail[1..], n);
    FirstAndRest(['\''] + (inner + ['\'']), Inside(tail[1..]), n);
  }

  lemma QuotedIsHarmless(d: string, n: nat)
    requires Others(d) <= n
    ensures AllHarmless(Matches(['\''] + Inside(d)), n)
  {
    QuotedMatchLength('\'', Inside(d));
    if Closing(Inside(d), '\'') == 0 {
      InsideIsHarmless(d, n);
      assert (['\''] + Inside(d))[1..] == Inside(d);
      PassedOver(['\''] + Inside(d), n);
    } else {
      var p, tail := ClosesAtSingle(d);
      if Closing(Inside(d), '\'') == |p| + 1 {
        QuotedPartIsHarmless(p, tail, n);
      } else {
        assert p == Front(p) + ['\\'];
        EscapedPartIsHarmless(Front(p), tail, n);
      }
    }
  }

  lemma BodyTokensAreHarmless(body: string)
    ensures forall value <- BodyTokens(body) :: Harmless(value, Others(body))
  {
    var joined := JoinLines(body);
    QuotedJoins(body);
    JoiningDropsOthers(body);
    QuotedIsHarmless(joined, Others(body));
  }

  // The body that is a single quote.

  predicate NoneIs(tokens: seq<string>, value: string) {
    forall i :: 0 <= i < |tokens| ==> StripQuotes(tokens[i]) != value
  }

  lemma FirstIsNot(token: string, rest: string, value: string)
    requires token != "" && MatchLength(token + rest) == |token|
    requires StripQuotes(token) != value && NoneIs(Matches(rest), value)
    ensures NoneIs(Matches(token + rest), value)
  {
    var t := token + rest;
    assert t[..|token|] == token && t[|token|..] == rest;
    assert Matches(t) == [token] + Matches(rest);
  }

  lemma QuoteAloneJoins()
    ensures JoinLines(ShellQuote(['\''])) == (['\''] + ("" + ['\''])) + Reopened(Inside(""))
  {
    QuotedJoins(['\'']);
    JoinChar('\'', "");
    assert ['\''] + "" == ['\''] && ['\''][1..] == "" && ['\''] + JoinLines("") == ['\''];
    assert Inside(['\'']) == Group(Inside(""));
  }

  lemma QuoteAloneIsLost()
    ensures ['\''] !in BodyTokens(['\''])
  {
    var empty, value := ['\''] + ("" + ['\'']), ['\''];
    QuoteAloneJoins();
    QuoteAloneMatchesNothing();
    EmptyQuotesMatch(Inside(""));
    FirstIsNot(empty, Inside(""), value);
    LoneBackslashMatches(empty + Inside(""));
    FirstIsNot(['\\'], empty + Inside(""), value);
    EmptyQuotesMatch(Reopened(Inside("")));
    FirstIsNot(empty, Reopened(Inside("")), value);
  }

  /** A body with a single quote is never one of the tokens it is split into. */
  lemma {:induction false} QuoteIsLost(body: string)
    requires '\'' in body
    ensures body !in BodyTokens(body)
  {
    if body == ['\''] {
      QuoteAloneIsLost();
    } else {
      BodyTokensAreHarmless(body);
    }
  }
}
