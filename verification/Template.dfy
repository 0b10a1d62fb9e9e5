/**
 Template expansion: `{{name}}` is replaced by a variable's value, which is expanded in turn, down to a fixed number of
 lookups. Names without a value are collected. The bounded expansion is compared with chains of lookups and with the
 unbounded expansion.
 */
module Template {
  import opened Seqs
  import opened JsText

  /**
   The variables, what the names starting with a dollar sign produce, and how references are found in a text. Only at
   the end is the last one tied to `Scan`; until then the results do not depend on how a reference is written.
   */
  datatype Scope = Scope(variables: map<string, string>, dynamic: string -> string, scan: string -> seq<Piece>)

  datatype Piece = Text(c: char) | Ref(name: string)

  // Scanning: /\{\{\s*([^}]+?)\s*\}\}/g.

  /** How many characters stand between the braces of a reference at the start of `s`, or zero without a reference. */
  function InnerLength(s: string): (n: nat)
    ensures n > 0 ==> n + 4 <= |s| && s[..2] == "{{" && s[n + 2..n + 4] == "}}"
    ensures n > 0 ==> forall i :: 2 <= i < n + 2 ==> s[i] != '}'
  {
    if |s| < 2 || s[..2] != "{{" then 0
    else
      var n := Find(s[2..], "}");
      if n > 0 && n + 3 < |s| && s[n + 3] == '}' then
        NoBraceBefore(s, n);
        n
      else 0
  }

  /** A reference with `n` characters between its braces. */
  predicate Placeholder(s: string, n: nat) {
    && 0 < n && n + 4 <= |s| && s[..2] == "{{" && s[n + 2..n + 4] == "}}"
    && forall i :: 2 <= i < n + 2 ==> s[i] != '}'
  }

  /** The scanner finds exactly the reference that is there. */
  lemma {:induction false} PlaceholderIsFound(s: string, n: nat)
    requires n > 0
    ensures InnerLength(s) == n <==> Placeholder(s, n)
  {
    if Placeholder(s, n) {
      var rest := s[2..];
      FindChar(rest, '}');
      assert rest[n] == s[n + 2..n + 4][0] && s[n + 3] == s[n + 2..n + 4][1];
      assert forall i :: 0 <= i < n ==> rest[i] == s[i + 2];
    }
  }

  lemma NoBraceBefore(s: string, n: nat)
    requires |s| >= 2 && n == Find(s[2..], "}")
    ensures s[n + 2] == '}' && forall i :: 2 <= i < n + 2 ==> s[i] != '}'
  {
    FindChar(s[2..], '}');
    assert forall i :: 2 <= i < |s| ==> s[i] == s[2..][i - 2];
  }

  function Scan(s: string): seq<Piece> {
    if s == "" then []
    else
      var n := InnerLength(s);
      if n == 0 then [Text(s[0])] + Scan(s[1..])
      else [Ref(Trim(s[2..n + 2]))] + Scan(s[n + 4..])
  }

  // Expanding.

  predicate Dynamic(name: string) { name != "" && name[0] == '$' }

  /** The name is looked up and has a value. */
  predicate Defined(scope: Scope, name: string) { !Dynamic(name) && name in scope.variables }

  predicate Undefined(scope: Scope, name: string) { !Dynamic(name) && name !in scope.variables }

  function Braced(name: string): string { "{{" + name + "}}" }

  /** One piece, where `f` expands the values of variables. */
  function Show(scope: Scope, piece: Piece, f: string -> string): string {
    match piece
    case Text(c) => [c]
    case Ref(name) =>
      if Dynamic(name) then scope.dynamic(name)
      else if name in scope.variables then f(scope.variables[name])
      else Braced(name)
  }

  function Render(scope: Scope, pieces: seq<Piece>, f: string -> string): string {
    if pieces == [] then "" else Show(scope, pieces[0], f) + Render(scope, pieces[1..], f)
  }

  /** Expansion of the text with `left` rounds of lookups; with none left the text stays as it is. */
  function Expand(scope: Scope, text: string, left: nat): string
    decreases left, 0
  {
    if left == 0 then text else Render(scope, scope.scan(text), Expander(scope, left - 1))
  }

  function Expander(scope: Scope, left: nat): string -> string
    decreases left, 1
  {
    text => Expand(scope, text, left)
  }

  /** The names reported while expanding one piece, or a list of pieces. */
  function MissingInPiece(scope: Scope, piece: Piece, left: nat): set<string>
    decreases left, 0
  {
    if piece.Text? || Dynamic(piece.name) then {}
    else if piece.name in scope.variables then
      if left == 0 then {} else MissingIn(scope, scope.scan(scope.variables[piece.name]), left - 1)
    else {piece.name}
  }

  /** The names reported while expanding pieces whose variables may be followed `left` more times. */
  function MissingIn(scope: Scope, pieces: seq<Piece>, left: nat): set<string>
    decreases left, 1, |pieces|
  {
    if pieces == [] then {}
    else MissingInPiece(scope, pieces[0], left) + MissingIn(scope, pieces[1..], left)
  }

  const MAX_DEPTH: nat := 8

  lemma {:induction false} RenderAppend(scope: Scope, pieces: seq<Piece>, n: nat, f: string -> string)
    requires n < |pieces|
    ensures Render(scope, pieces[..n + 1], f) == Render(scope, pieces[..n], f) + Show(scope, pieces[n], f)
  {
    assert pieces[..n + 1][1..] == pieces[1..][..n];
    if n > 0 {
      assert pieces[..n][1..] == pieces[1..][..n - 1];
      RenderAppend(scope, pieces[1..], n - 1, f);
    }
  }

  lemma {:induction false} MissingAppend(scope: Scope, pieces: seq<Piece>, n: nat, left: nat)
    requires n < |pieces|
    ensures MissingIn(scope, pieces[..n + 1], left)
         == MissingIn(scope, pieces[..n], left) + MissingInPiece(scope, pieces[n], left)
    decreases n
  {
    assert pieces[..n + 1][1..] == pieces[1..][..n];
    if n > 0 {
      assert pieces[..n][1..] == pieces[1..][..n - 1];
      MissingAppend(scope, pieces[1..], n - 1, left);
    }
  }

  /** One call of the resolver: the set of unresolved names is shared by the nested calls. */
  class Resolver {
    const scope: Scope
    var unresolved: set<string>

    constructor (scope: Scope)
      ensures this.scope == scope && unresolved == {}
    {
      this.scope := scope;
      unresolved := {};
    }

    /** One piece of a text at the given depth. */
    method ResolvePiece(piece: Piece, depth: nat) returns (shown: string)
      requires depth <= MAX_DEPTH
      modifies this`unresolved
      ensures shown == Show(scope, piece, Expander(scope, MAX_DEPTH - depth))
      ensures unresolved == old(unresolved) + MissingInPiece(scope, piece, MAX_DEPTH - depth)
      decreases MAX_DEPTH + 1 - depth, 0
    {
      match piece {
        case Text(c) =>
          shown := [c];
        case Ref(name) =>
          if Dynamic(name) {
            shown := scope.dynamic(name);
          } else if name !in scope.variables {
            unresolved := unresolved + {name};
            shown := Braced(name);
          } else {
            shown := ResolveOne(scope.variables[name], depth + 1);
          }
      }
    }

    /** The pieces of a text, one after another. */
    method ResolvePieces(pieces: seq<Piece>, depth: nat) returns (text: string)
      requires depth <= MAX_DEPTH
      modifies this`unresolved
      ensures text == Render(scope, pieces, Expander(scope, MAX_DEPTH - depth))
      ensures unresolved == old(unresolved) + MissingIn(scope, pieces, MAX_DEPTH - depth)
      decreases MAX_DEPTH + 1 - depth, 1
    {
      ghost var f := Expander(scope, MAX_DEPTH - depth);
      text := "";
      for n := 0 to |pieces|
        invariant text == Render(scope, pieces[..n], f)
        invariant unresolved == old(unresolved) + MissingIn(scope, pieces[..n], MAX_DEPTH - depth)
      {
        RenderAppend(scope, pieces, n, f);
        MissingAppend(scope, pieces, n, MAX_DEPTH - depth);
        var shown := ResolvePiece(pieces[n], depth);
        text := text + shown;
      }
      assert pieces[..|pieces|] == pieces;
    }

    method ResolveOne(value: string, depth: nat) returns (text: string)
      requires depth <= MAX_DEPTH + 1
      modifies this`unresolved
      ensures text == Expand(scope, value, MAX_DEPTH + 1 - depth)
      ensures unresolved == old(unresolved)
        + if depth > MAX_DEPTH then {} else MissingIn(scope, scope.scan(value), MAX_DEPTH - depth)
      decreases MAX_DEPTH + 1 - depth, 2
    {
      if depth > MAX_DEPTH {
        return value;
      }
      text := ResolvePieces(scope.scan(value), depth);
    }
  }

  /** The resolved template, and the names left unresolved. */
  method ResolveIn(input: string, scope: Scope) returns (value: string, unresolved: set<string>)
    ensures value == Expand(scope, input, MAX_DEPTH + 1)
    ensures unresolved == MissingIn(scope, scope.scan(input), MAX_DEPTH)
  {
    var resolver := new Resolver(scope);
    value := resolver.ResolveOne(input, 0);
    unresolved := resolver.unresolved;
  }

  function TemplateScope(variables: map<string, string>, dynamic: string -> string): Scope {
    Scope(variables, dynamic, Scan)
  }

  method ResolveTemplate(input: string, variables: map<string, string>, dynamic: string -> string)
    returns (value: string, unresolved: set<string>)
    ensures value == Expand(TemplateScope(variables, dynamic), input, 9)
    ensures unresolved == MissingIn(TemplateScope(variables, dynamic), Scan(input), 8)
  {
    value, unresolved := ResolveIn(input, TemplateScope(variables, dynamic));
  }

  // Expansion read off the text, from its start to its end.

  lemma ScanReference(inner: string, rest: string)
    requires inner != "" && '}' !in inner
    ensures Scan("{{" + inner + "}}" + rest) == [Ref(Trim(inner))] + Scan(rest)
  {
    var s, n := "{{" + inner + "}}" + rest, |inner|;
    assert s[..2] == "{{" && s[2..n + 2] == inner && s[n + 2..n + 4] == "}}" && s[n + 4..] == rest;
    assert forall i :: 2 <= i < n + 2 ==> s[i] == inner[i - 2];
    PlaceholderIsFound(s, n);
  }

  lemma RenderFirst(scope: Scope, piece: Piece, pieces: seq<Piece>, f: string -> string)
    ensures Render(scope, [piece] + pieces, f) == Show(scope, piece, f) + Render(scope, pieces, f)
  {
    assert ([piece] + pieces)[1..] == pieces;
  }

  lemma MissingFirst(scope: Scope, piece: Piece, pieces: seq<Piece>, left: nat)
    ensures MissingIn(scope, [piece] + pieces, left)
         == MissingInPiece(scope, piece, left) + MissingIn(scope, pieces, left)
  {
    assert ([piece] + pieces)[1..] == pieces;
  }

  /**
   A reference is replaced, whatever white space stands around its name: a name with a dollar sign by what that
   produces, the name of a variable by its value with one round of lookups less, and any other stays, without the white
   space.
   */
  lemma {:induction false} ReferenceIsReplaced(
    variables: map<string, string>, dynamic: string -> string,
    before: string, name: string, after: string, rest: string, left: nat
  )
    requires Blank(before) && Blank(after) && Trimmed(name) && '}' !in name && before + name + after != ""
    ensures var scope := TemplateScope(variables, dynamic);
      var value := if name != "" && name[0] == '$' then dynamic(name)
                   else if name in variables then Expand(scope, variables[name], left)
                   else "{{" + name + "}}";
      Expand(scope, "{{" + (before + name + after) + "}}" + rest, left + 1) == value + Expand(scope, rest, left + 1)
  {
    var scope := TemplateScope(variables, dynamic);
    ReferenceIsScanned(before, name, after, rest);
    RenderFirst(scope, Ref(name), Scan(rest), Expander(scope, left));
  }

  lemma ReferenceIsScanned(before: string, name: string, after: string, rest: string)
    requires Blank(before) && Blank(after) && Trimmed(name) && '}' !in name && before + name + after != ""
    ensures Scan("{{" + (before + name + after) + "}}" + rest) == [Ref(name)] + Scan(rest)
  {
    var inner := before + name + after;
    assert forall c <- inner :: c in before || c in name || c in after;
    ScanReference(inner, rest);
    TrimCuts(before, name, after);
  }

  /** A reference is reported if it has no value, and what its value refers to while there are lookups left. */
  lemma {:induction false} ReferenceIsReported(
    variables: map<string, string>, dynamic: string -> string,
    before: string, name: string, after: string, rest: string, left: nat
  )
    requires Blank(before) && Blank(after) && Trimmed(name) && '}' !in name && before + name + after != ""
    ensures var scope := TemplateScope(variables, dynamic);
      var missing := if name != "" && name[0] == '$' then {}
                     else if name !in variables then {name}
                     else if left == 0 then {}
                     else MissingIn(scope, Scan(variables[name]), left - 1);
      MissingIn(scope, Scan("{{" + (before + name + after) + "}}" + rest), left)
      == missing + MissingIn(scope, Scan(rest), left)
  {
    ReferenceIsScanned(before, name, after, rest);
    MissingFirst(TemplateScope(variables, dynamic), Ref(name), Scan(rest), left);
  }

  /** A character that no reference starts at stays as it is and is not reported; nothing is left of no text. */
  lemma {:induction false} OtherCharacterStays(
    variables: map<string, string>, dynamic: string -> string, text: string, left: nat
  )
    requires forall n: nat :: !Placeholder(text, n)
    ensures var scope := TemplateScope(variables, dynamic);
      if text == "" then Expand(scope, text, left + 1) == "" && MissingIn(scope, Scan(text), left) == {}
      else
        && Expand(scope, text, left + 1) == [text[0]] + Expand(scope, text[1..], left + 1)
        && MissingIn(scope, Scan(text), left) == MissingIn(scope, Scan(text[1..]), left)
  {
    if text != "" {
      var scope := TemplateScope(variables, dynamic);
      if InnerLength(text) > 0 {
        PlaceholderIsFound(text, InnerLength(text));
      }
      assert Scan(text) == [Text(text[0])] + Scan(text[1..]);
      RenderFirst(scope, Text(text[0]), Scan(text[1..]), Expander(scope, left));
      MissingFirst(scope, Text(text[0]), Scan(text[1..]), left);
    }
  }

  /** Without a round of lookups left a text stays as it is. */
  lemma NoRoundLeft(variables: map<string, string>, dynamic: string -> string, text: string)
    ensures Expand(TemplateScope(variables, dynamic), text, 0) == text
  {
  }

  // Chains of lookups.

  predicate Mentions(scope: Scope, text: string, name: string) { Ref(name) in scope.scan(text) }

  /** The names can be looked up one after another: each is mentioned in the value of the one before. */
  predicate Follows(scope: Scope, text: string, chain: seq<string>)
    decreases |chain|
  {
    chain == []
    || (Mentions(scope, text, chain[0]) && Defined(scope, chain[0])
      && Follows(scope, scope.variables[chain[0]], chain[1..]))
  }

  /** The text the chain leads to. */
  function Reached(scope: Scope, text: string, chain: seq<string>): string
    requires Follows(scope, text, chain)
    decreases |chain|
  {
    if chain == [] then text else Reached(scope, scope.variables[chain[0]], chain[1..])
  }

  /** The chain leads to a text that mentions the name. */
  predicate LeadsTo(scope: Scope, text: string, chain: seq<string>, name: string) {
    Follows(scope, text, chain) && Mentions(scope, Reached(scope, text, chain), name)
  }

  lemma {:induction false} MissingHasAPiece(
    scope: Scope, pieces: seq<Piece>, left: nat, name: string) returns (piece: Piece
  )
    requires name in MissingIn(scope, pieces, left)
    ensures piece in pieces && name in MissingInPiece(scope, piece, left)
    decreases |pieces|
  {
    if name in MissingInPiece(scope, pieces[0], left) {
      piece := pieces[0];
    } else {
      piece := MissingHasAPiece(scope, pieces[1..], left, name);
    }
  }

  lemma {:induction false} PieceIsInMissing(scope: Scope, pieces: seq<Piece>, left: nat, piece: Piece)
    requires piece in pieces
    ensures MissingInPiece(scope, piece, left) <= MissingIn(scope, pieces, left)
    decreases |pieces|
  {
    if piece != pieces[0] {
      PieceIsInMissing(scope, pieces[1..], left, piece);
    }
  }

  lemma {:induction false} MissingHasAChain(scope: Scope, text: string, left: nat, name: string)
    returns (chain: seq<string>)
    requires name in MissingIn(scope, scope.scan(text), left)
    ensures |chain| <= left && LeadsTo(scope, text, chain, name) && Undefined(scope, name)
    decreases left
  {
    var piece := MissingHasAPiece(scope, scope.scan(text), left, name);
    if piece.name in scope.variables {
      var rest := MissingHasAChain(scope, scope.variables[piece.name], left - 1, name);
      chain := [piece.name] + rest;
      assert chain[1..] == rest;
    } else {
      chain := [];
    }
  }

  lemma {:induction false} ChainIsMissing(scope: Scope, text: string, left: nat, chain: seq<string>, name: string)
    requires |chain| <= left && LeadsTo(scope, text, chain, name) && Undefined(scope, name)
    ensures name in MissingIn(scope, scope.scan(text), left)
    decreases left
  {
    if chain == [] {
      PieceIsInMissing(scope, scope.scan(text), left, Ref(name));
    } else {
      ChainIsMissing(scope, scope.variables[chain[0]], left - 1, chain[1..], name);
      PieceIsInMissing(scope, scope.scan(text), left, Ref(chain[0]));
    }
  }

  /** Exactly the undefined names within reach of eight lookups are reported. */
  lemma {:induction false} UnresolvedIsReachable(scope: Scope, input: string, name: string)
    ensures name in MissingIn(scope, scope.scan(input), 8)
       <==> Undefined(scope, name) && exists chain :: |chain| <= 8 && LeadsTo(scope, input, chain, name)
  {
    if name in MissingIn(scope, scope.scan(input), MAX_DEPTH) {
      var chain := MissingHasAChain(scope, input, MAX_DEPTH, name);
    }
    if Undefined(scope, name) && exists chain :: |chain| <= MAX_DEPTH && LeadsTo(scope, input, chain, name) {
      var chain :| |chain| <= MAX_DEPTH && LeadsTo(scope, input, chain, name);
      ChainIsMissing(scope, input, MAX_DEPTH, chain, name);
    }
  }

  // When the bound does not show.

  predicate NoReferences(scope: Scope, text: string) { forall p <- scope.scan(text) :: p.Text? }

  /** Every chain of `n` lookups leads to a text without references. */
  ghost predicate Settled(scope: Scope, text: string, n: nat) {
    forall chain: seq<string> :: |chain| == n && Follows(scope, text, chain)
      ==> NoReferences(scope, Reached(scope, text, chain))
  }

  lemma SettledNow(scope: Scope, text: string)
    requires Settled(scope, text, 0)
    ensures NoReferences(scope, text)
  {
    assert Follows(scope, text, []) && Reached(scope, text, []) == text;
  }

  lemma SettledStep(scope: Scope, text: string, n: nat, name: string)
    requires Settled(scope, text, n) && n > 0 && Mentions(scope, text, name) && Defined(scope, name)
    ensures Settled(scope, scope.variables[name], n - 1)
  {
    var next := scope.variables[name];
    forall chain: seq<string> | |chain| == n - 1 && Follows(scope, next, chain)
      ensures NoReferences(scope, Reached(scope, next, chain))
    {
      var longer := [name] + chain;
      assert longer[1..] == chain;
      assert Follows(scope, text, longer);
    }
  }

  function Spell(pieces: seq<Piece>): string {
    if pieces == [] then "" else (if pieces[0].Text? then [pieces[0].c] else []) + Spell(pieces[1..])
  }

  /** A text without references is what its pieces spell. */
  ghost predicate Faithful(scope: Scope) {
    forall text :: NoReferences(scope, text) ==> Spell(scope.scan(text)) == text
  }

  lemma {:induction false} PlainPiecesSpell(scope: Scope, pieces: seq<Piece>, f: string -> string)
    requires forall p <- pieces :: p.Text?
    ensures Render(scope, pieces, f) == Spell(pieces)
  {
    if pieces != [] {
      assert pieces[0] in pieces && forall p <- pieces[1..] :: p in pieces;
      PlainPiecesSpell(scope, pieces[1..], f);
    }
  }

  lemma PlainTextStays(scope: Scope, text: string, f: string -> string)
    requires Faithful(scope) && NoReferences(scope, text)
    ensures Render(scope, scope.scan(text), f) == text
  {
    PlainPiecesSpell(scope, scope.scan(text), f);
  }

  /** Expanders that agree on the values looked up render the same. */
  lemma {:induction false} SameRendering(scope: Scope, pieces: seq<Piece>, f: string -> string, g: string -> string)
    requires forall name :: Ref(name) in pieces && Defined(scope, name) ==>
      f(scope.variables[name]) == g(scope.variables[name])
    ensures Render(scope, pieces, f) == Render(scope, pieces, g)
  {
    if pieces != [] {
      assert forall name :: Ref(name) in pieces[1..] ==> Ref(name) in pieces;
      SameRendering(scope, pieces[1..], f, g);
      assert pieces[0] in pieces;
    }
  }

  /** `f` expands the text and everything reachable from it without any bound. */
  ghost predicate ExpandsWithoutBound(scope: Scope, text: string, f: string -> string) {
    forall chain: seq<string> :: Follows(scope, text, chain) ==>
      f(Reached(scope, text, chain)) == Render(scope, scope.scan(Reached(scope, text, chain)), f)
  }

  lemma UnboundedStep(scope: Scope, text: string, f: string -> string, name: string)
    requires ExpandsWithoutBound(scope, text, f) && Mentions(scope, text, name) && Defined(scope, name)
    ensures ExpandsWithoutBound(scope, scope.variables[name], f)
  {
    var next := scope.variables[name];
    forall chain: seq<string> | Follows(scope, next, chain)
      ensures f(Reached(scope, next, chain)) == Render(scope, scope.scan(Reached(scope, next, chain)), f)
    {
      var longer := [name] + chain;
      assert longer[1..] == chain;
      assert Follows(scope, text, longer);
    }
  }

  lemma UnboundedNow(scope: Scope, text: string, f: string -> string)
    requires ExpandsWithoutBound(scope, text, f)
    ensures f(text) == Render(scope, scope.scan(text), f)
  {
    assert Follows(scope, text, []) && Reached(scope, text, []) == text;
  }

  lemma UnboundedFromValues(scope: Scope, text: string, n: nat, f: string -> string)
    requires f(text) == Render(scope, scope.scan(text), f)
    requires forall name :: Ref(name) in scope.scan(text) && Defined(scope, name) ==>
      f(scope.variables[name]) == Expand(scope, scope.variables[name], n)
    ensures f(text) == Expand(scope, text, n + 1)
  {
    SameRendering(scope, scope.scan(text), f, Expander(scope, n));
  }

  lemma {:induction false} UnboundedIsExpand(scope: Scope, text: string, n: nat, f: string -> string)
    requires Faithful(scope)
    requires Settled(scope, text, n) && ExpandsWithoutBound(scope, text, f)
    ensures f(text) == Expand(scope, text, n)
    decreases n
  {
    UnboundedNow(scope, text, f);
    if n == 0 {
      SettledNow(scope, text);
      PlainTextStays(scope, text, f);
    } else {
      forall name | Ref(name) in scope.scan(text) && Defined(scope, name)
        ensures f(scope.variables[name]) == Expand(scope, scope.variables[name], n - 1)
      {
        SettledStep(scope, text, n, name);
        UnboundedStep(scope, text, f, name);
        UnboundedIsExpand(scope, scope.variables[name], n - 1, f);
      }
      UnboundedFromValues(scope, text, n - 1, f);
    }
  }

  lemma SameOneRoundLater(scope: Scope, text: string, n: nat, m: nat)
    requires forall name :: Ref(name) in scope.scan(text) && Defined(scope, name) ==>
      Expand(scope, scope.variables[name], m) == Expand(scope, scope.variables[name], n)
    ensures Expand(scope, text, m + 1) == Expand(scope, text, n + 1)
  {
    SameRendering(scope, scope.scan(text), Expander(scope, m), Expander(scope, n));
  }

  lemma {:induction false} MoreRoundsChangeNothing(scope: Scope, text: string, n: nat, m: nat)
    requires Faithful(scope)
    requires Settled(scope, text, n) && n <= m
    ensures Expand(scope, text, m) == Expand(scope, text, n)
    decreases n
  {
    if n == 0 {
      SettledNow(scope, text);
      if m > 0 {
        PlainTextStays(scope, text, Expander(scope, m - 1));
      }
    } else {
      forall name | Ref(name) in scope.scan(text) && Defined(scope, name)
        ensures Expand(scope, scope.variables[name], m - 1) == Expand(scope, scope.variables[name], n - 1)
      {
        SettledStep(scope, text, n, name);
        MoreRoundsChangeNothing(scope, scope.variables[name], n - 1, m - 1);
      }
      SameOneRoundLater(scope, text, n - 1, m - 1);
    }
  }

  /** A text reached by `k` lookups from a settled one is settled `k` lookups sooner. */
  lemma {:induction false} SettledAlong(scope: Scope, text: string, n: nat, chain: seq<string>)
    requires Settled(scope, text, n) && Follows(scope, text, chain)
    ensures |chain| <= n && Settled(scope, Reached(scope, text, chain), n - |chain|)
    decreases |chain|
  {
    if chain != [] {
      assert Follows(scope, text, []) && Reached(scope, text, []) == text;
      assert Ref(chain[0]) in scope.scan(text);
      assert n > 0;
      SettledStep(scope, text, n, chain[0]);
      SettledAlong(scope, scope.variables[chain[0]], n - 1, chain[1..]);
    }
  }

  lemma OneMoreRound(scope: Scope, text: string, k: nat, n: nat)
    requires Faithful(scope) && Settled(scope, text, k) && k <= n
    ensures Expander(scope, n)(text) == Render(scope, scope.scan(text), Expander(scope, n))
  {
    MoreRoundsChangeNothing(scope, text, k, n);
    MoreRoundsChangeNothing(scope, text, k, n + 1);
    assert Expand(scope, text, n + 1) == Render(scope, scope.scan(text), Expander(scope, n));
  }

  lemma ExpandIsUnbounded(scope: Scope, text: string, n: nat)
    requires Faithful(scope)
    requires Settled(scope, text, n)
    ensures ExpandsWithoutBound(scope, text, Expander(scope, n))
  {
    var f := Expander(scope, n);
    forall chain: seq<string> | Follows(scope, text, chain)
      ensures f(Reached(scope, text, chain)) == Render(scope, scope.scan(Reached(scope, text, chain)), f)
    {
      SettledAlong(scope, text, n, chain);
      OneMoreRound(scope, Reached(scope, text, chain), n - |chain|, n);
    }
  }

  lemma {:induction false} MoreRoundsMissTheSame(scope: Scope, text: string, n: nat, m: nat, name: string)
    requires Settled(scope, text, n + 1) && n <= m
    ensures name in MissingIn(scope, scope.scan(text), m) <==> name in MissingIn(scope, scope.scan(text), n)
  {
    if name in MissingIn(scope, scope.scan(text), m) {
      var chain := MissingHasAChain(scope, text, m, name);
      SettledAlong(scope, text, n + 1, chain);
      var last := Reached(scope, text, chain);
      assert Ref(name) in scope.scan(last);
      assert |chain| <= n;
      ChainIsMissing(scope, text, n, chain, name);
    }
    if name in MissingIn(scope, scope.scan(text), n) {
      var chain := MissingHasAChain(scope, text, n, name);
      ChainIsMissing(scope, text, m, chain, name);
    }
  }

  lemma {:induction false} ScanIsFaithful(text: string)
    requires forall p <- Scan(text) :: p.Text?
    ensures Spell(Scan(text)) == text
  {
    if text != "" {
      assert Scan(text)[0] in Scan(text);
      assert InnerLength(text) == 0;
      assert Scan(text) == [Text(text[0])] + Scan(text[1..]);
      ScanIsFaithful(text[1..]);
    }
  }

  lemma TemplatesAreFaithful(variables: map<string, string>, dynamic: string -> string)
    ensures Faithful(TemplateScope(variables, dynamic))
  {
    var scope := TemplateScope(variables, dynamic);
    forall text | NoReferences(scope, text)
      ensures Spell(scope.scan(text)) == text
    {
      ScanIsFaithful(text);
    }
  }

  /** The bound does not show for any way of finding references that spells texts faithfully. */
  lemma {:induction false} BoundDoesNotShowIn(scope: Scope, input: string)
    requires Faithful(scope)
    requires Settled(scope, input, MAX_DEPTH + 1)
    ensures ExpandsWithoutBound(scope, input, Expander(scope, MAX_DEPTH + 1))
    ensures forall f: string -> string ::
      ExpandsWithoutBound(scope, input, f) ==> f(input) == Expand(scope, input, MAX_DEPTH + 1)
    ensures forall m: nat :: m > MAX_DEPTH ==> Expand(scope, input, m) == Expand(scope, input, MAX_DEPTH + 1)
    ensures forall m: nat :: m >= MAX_DEPTH ==>
      MissingIn(scope, scope.scan(input), m) == MissingIn(scope, scope.scan(input), MAX_DEPTH)
  {
    ExpandIsUnbounded(scope, input, MAX_DEPTH + 1);
    forall f: string -> string | ExpandsWithoutBound(scope, input, f)
      ensures f(input) == Expand(scope, input, MAX_DEPTH + 1)
    {
      UnboundedIsExpand(scope, input, MAX_DEPTH + 1, f);
    }
    forall m: nat | m > MAX_DEPTH
      ensures Expand(scope, input, m) == Expand(scope, input, MAX_DEPTH + 1)
    {
      MoreRoundsChangeNothing(scope, input, MAX_DEPTH + 1, m);
    }
    forall m: nat | m >= MAX_DEPTH
      ensures MissingIn(scope, scope.scan(input), m) == MissingIn(scope, scope.scan(input), MAX_DEPTH)
    {
      forall name
        ensures name in MissingIn(scope, scope.scan(input), m)
           <==> name in MissingIn(scope, scope.scan(input), MAX_DEPTH)
      {
        MoreRoundsMissTheSame(scope, input, MAX_DEPTH, m, name);
      }
    }
  }

  /**
   If nine lookups always end at a text without references, the template expands as it would without a bound: the
   unbounded expansion exists, every unbounded expansion gives the same text, and no larger bound changes the text or
   the reported names.
   */
  lemma {:induction false} BoundDoesNotShow(variables: map<string, string>, dynamic: string -> string, input: string)
    requires Settled(TemplateScope(variables, dynamic), input, MAX_DEPTH + 1)
    ensures var scope := TemplateScope(variables, dynamic);
      && ExpandsWithoutBound(scope, input, Expander(scope, MAX_DEPTH + 1))
      && (forall f: string -> string ::
            ExpandsWithoutBound(scope, input, f) ==> f(input) == Expand(scope, input, MAX_DEPTH + 1))
      && (forall m: nat :: m > MAX_DEPTH ==> Expand(scope, input, m) == Expand(scope, input, MAX_DEPTH + 1))
      && forall m: nat :: m >= MAX_DEPTH ==>
        MissingIn(scope, scope.scan(input), m) == MissingIn(scope, scope.scan(input), MAX_DEPTH)
  {
    TemplatesAreFaithful(variables, dynamic);
    BoundDoesNotShowIn(TemplateScope(variables, dynamic), input);
  }

  // A cycle is neither expanded nor reported.

  lemma OneReference(name: string)
    requires name != "" && Trimmed(name) && '}' !in name
    ensures Scan(Braced(name)) == [Ref(name)]
  {
    var text := Braced(name);
    assert text[2..] == name + "}" + "}" && text[..2] == "{{";
    FindCharAfter(name, '}', "}");
    assert InnerLength(text) == |name|;
    assert text[2..|name| + 2] == name && text[|name| + 4..] == "";
    TrimmedIsTrim(name);
  }

  lemma {:induction false} SelfReferenceLoops(scope: Scope, name: string, left: nat)
    requires Defined(scope, name) && scope.variables[name] == Braced(name)
    requires scope.scan(Braced(name)) == [Ref(name)]
    ensures Expand(scope, Braced(name), left) == Braced(name)
    ensures MissingIn(scope, scope.scan(Braced(name)), left) == {}
  {
    assert [Ref(name)][1..] == [];
    if left > 0 {
      SelfReferenceLoops(scope, name, left - 1);
      var f := Expander(scope, left - 1);
      assert Render(scope, [Ref(name)], f) == f(Braced(name)) + Render(scope, [], f);
    }
    assert MissingIn(scope, [Ref(name)], left) == MissingInPiece(scope, Ref(name), left) + {};
  }

  /** A variable that only mentions itself comes out as written, and nothing is reported. */
  lemma {:induction false} SelfReferenceGoesUnreported(
    variables: map<string, string>, dynamic: string -> string, name: string
  )
    requires name != "" && Trimmed(name) && '}' !in name && !Dynamic(name)
    requires name in variables && variables[name] == Braced(name)
    ensures var scope := TemplateScope(variables, dynamic);
      && Expand(scope, Braced(name), MAX_DEPTH + 1) == Braced(name)
      && MissingIn(scope, scope.scan(Braced(name)), MAX_DEPTH) == {}
  {
    OneReference(name);
    SelfReferenceLoops(TemplateScope(variables, dynamic), name, MAX_DEPTH + 1);
    SelfReferenceLoops(TemplateScope(variables, dynamic), name, MAX_DEPTH);
  }
}
