/** From the text of a declared licence to its tokens, and the decision on the text
    (companion/scripts/build_desktop.py, companion/scripts/licenses.py). */
module SpdxText {

  import opened SpdxLicense
  import opened Text

  const TEXT_ALLOWED: set<string> := {"MIT", "BSD-2-Clause", "BSD-3-Clause", "Apache-2.0", "ISC", "MPL-2.0"}

  const DECLARED_ALLOWED: set<string> :=
    TEXT_ALLOWED + {"Unicode-3.0", "Unicode-DFS-2016", "Zlib", "Unlicense", "CC0-1.0", "MIT-0", "0BSD", "BSL-1.0"}

  /** The licences a declaration may name, one by one. */
  lemma DeclaredIds(id: string)
    ensures id in DECLARED_ALLOWED <==>
      || id == "MIT" || id == "BSD-2-Clause" || id == "BSD-3-Clause" || id == "Apache-2.0" || id == "ISC" || id == "MPL-2.0"
      || id == "Unicode-3.0" || id == "Unicode-DFS-2016" || id == "Zlib" || id == "Unlicense" || id == "CC0-1.0"
      || id == "MIT-0" || id == "0BSD" || id == "BSL-1.0"
  {
  }

  predicate Paren(c: char) { c == '(' || c == ')' }

  predicate WordChar(c: char) { !Space(c) && !Paren(c) }

  /** How far a word reaches from the start of `s`. */
  function WordEnd(s: string): (n: nat)
    ensures n <= |s| && (forall i | 0 <= i < n :: WordChar(s[i])) && (n < |s| ==> !WordChar(s[n]))
  {
    if s == [] || !WordChar(s[0]) then 0 else 1 + WordEnd(s[1..])
  }

  /** All matches, left to right, of a parenthesis or a maximal run of other visible characters. */
  function Scan(s: string): seq<string>
    decreases |s|
  {
    if s == [] then []
    else if Space(s[0]) then Scan(s[1..])
    else if Paren(s[0]) then [[s[0]]] + Scan(s[1..])
    else [s[..WordEnd(s)]] + Scan(s[WordEnd(s)..])
  }

  function SlashesAsOr(s: string): string {
    if s == [] then [] else (if s[0] == '/' then " OR " else [s[0]]) + SlashesAsOr(s[1..])
  }

  function Tokens(text: string): seq<string> { Scan(SlashesAsOr(text)) }

  predicate DeclaredAllowed(text: string) { Accepts(Tokens(text), DECLARED_ALLOWED) }

  method DeclaredLicenseAllowed(text: string) returns (allowed: bool)
    ensures allowed == DeclaredAllowed(text)
  {
    allowed := ReadTokens(Tokens(text), DECLARED_ALLOWED);
  }

  // ----------------------------------------------------------- round trip

  lemma {:induction false} WordEndStops(s: string, rest: string)
    requires rest != [] && !WordChar(rest[0])
    ensures WordEnd(s + rest) == WordEnd(s)
  {
    if s == [] {
      assert s + rest == rest;
    } else {
      assert (s + rest)[1..] == s[1..] + rest;
      WordEndStops(s[1..], rest);
    }
  }

  lemma WordStays(s: string, rest: string)
    requires rest != [] && !WordChar(rest[0])
    ensures WordEnd(s + rest) == WordEnd(s)
    ensures (s + rest)[..WordEnd(s)] == s[..WordEnd(s)] && (s + rest)[WordEnd(s)..] == s[WordEnd(s)..] + rest
  {
    WordEndStops(s, rest);
  }

  lemma Regroup(first: seq<string>, a: seq<string>, b: seq<string>)
    ensures first + (a + b) == (first + a) + b
  {
  }

  /** A text that starts with a space or a parenthesis goes on from where the tokens before it end. */
  lemma {:induction false} ScanAppend(s: string, rest: string)
    requires rest != [] && !WordChar(rest[0])
    ensures Scan(s + rest) == Scan(s) + Scan(rest)
    decreases |s|
  {
    if s == [] {
      assert s + rest == rest;
    } else if Space(s[0]) || Paren(s[0]) {
      assert (s + rest)[1..] == s[1..] + rest;
      ScanAppend(s[1..], rest);
      Regroup([[s[0]]], Scan(s[1..]), Scan(rest));
    } else {
      var n := WordEnd(s);
      WordStays(s, rest);
      ScanAppend(s[n..], rest);
      Regroup([s[..n]], Scan(s[n..]), Scan(rest));
    }
  }

  /** A space separates: the tokens of the two sides, one after the other. */
  lemma ScanAtSpace(s: string, rest: string)
    ensures Scan(s + " " + rest) == Scan(s) + Scan(rest)
  {
    assert s + " " + rest == s + (" " + rest);
    ScanAppend(s, " " + rest);
    assert (" " + rest)[1..] == rest;
  }

  /** A parenthesis is a token of its own, with or without spaces around it. */
  lemma ScanAtParen(s: string, paren: char, rest: string)
    requires Paren(paren)
    ensures Scan(s + ([paren] + rest)) == Scan(s) + ([[paren]] + Scan(rest))
  {
    ScanAppend(s, [paren] + rest);
    assert ([paren] + rest)[1..] == rest;
  }

  lemma {:induction false} SlashesAppend(a: string, b: string)
    ensures SlashesAsOr(a + b) == SlashesAsOr(a) + SlashesAsOr(b)
  {
    if a == [] {
      assert a + b == b;
    } else {
      assert (a + b)[1..] == a[1..] + b;
      SlashesAppend(a[1..], b);
    }
  }

  lemma SlashText(a: string, b: string)
    ensures SlashesAsOr(a + "/" + b) == SlashesAsOr(a) + " OR " + SlashesAsOr(b)
  {
    SlashesAppend(a + "/", b);
    SlashesAppend(a, "/");
    assert SlashesAsOr("/") == " OR ";
  }

  lemma ScanBetween(x: string, word: string, y: string)
    requires word != [] && forall c | c in word :: WordChar(c)
    ensures Scan(x + " " + (word + " " + y)) == Scan(x) + ([word] + Scan(y))
  {
    ScanAtSpace(x, word + " " + y);
    ScanAtSpace(word, y);
    ScanWord(word);
  }

  /** The old-style slash reads exactly as OR. */
  lemma SlashReadsAsOr(a: string, b: string)
    ensures Tokens(a + "/" + b) == Tokens(a) + ["OR"] + Tokens(b)
  {
    SlashText(a, b);
    SpacedOr(SlashesAsOr(a), SlashesAsOr(b));
    ScanBetween(SlashesAsOr(a), "OR", SlashesAsOr(b));
    Regroup(Tokens(a), ["OR"], Tokens(b));
  }

  lemma SpacedOr(x: string, y: string)
    ensures x + " OR " + y == x + " " + ("OR" + " " + y)
  {
    assert " OR " == " " + "OR" + " ";
  }

  /** A token the text can carry: a parenthesis, or visible characters without a slash. */
  predicate Spelled(token: string) {
    token == "(" || token == ")" || (token != [] && forall c | c in token :: WordChar(c) && c != '/')
  }

  lemma ScanWord(token: string)
    requires token != [] && forall c | c in token :: WordChar(c)
    ensures Scan(token) == [token]
  {
    var n := WordEnd(token);
    assert n == |token|;
    assert token[..n] == token && token[n..] == [];
  }

  lemma ScanToken(token: string)
    requires Spelled(token)
    ensures Scan(token) == [token]
  {
    if token == "(" || token == ")" {
      assert token[1..] == [];
    } else {
      ScanWord(token);
    }
  }

  lemma {:induction false} NoSlashes(s: string)
    requires '/' !in s
    ensures SlashesAsOr(s) == s
  {
    if s != [] { NoSlashes(s[1..]); }
  }

  predicate AllSpelled(tokens: seq<string>) {
    forall token | token in tokens :: Spelled(token)
  }

  lemma JoinSpelled(a: seq<string>, token: string, b: seq<string>)
    requires AllSpelled(a) && AllSpelled(b) && Spelled(token)
    ensures AllSpelled(a + [token] + b)
  {
  }

  /** Tokens written out with a space after each. */
  function Render(tokens: seq<string>): string {
    if tokens == [] then [] else tokens[0] + " " + Render(tokens[1..])
  }

  lemma {:induction false} RenderReads(tokens: seq<string>)
    requires AllSpelled(tokens)
    ensures Scan(Render(tokens)) == tokens
  {
    if tokens != [] {
      assert Spelled(tokens[0]);
      ScanToken(tokens[0]);
      ScanAtSpace(tokens[0], Render(tokens[1..]));
      RenderReads(tokens[1..]);
      assert tokens == [tokens[0]] + tokens[1..];
    }
  }

  lemma {:induction false} RenderHasNoSlash(tokens: seq<string>)
    requires AllSpelled(tokens)
    ensures '/' !in Render(tokens)
  {
    if tokens != [] {
      assert Spelled(tokens[0]);
      RenderHasNoSlash(tokens[1..]);
    }
  }

  predicate Spellable(t: Tree) {
    match t
    case License(id) => Spelled(id)
    case Excepted(id, exception) => Spelled(id) && Spelled(exception)
    case And(l, r) => Spellable(l) && Spellable(r)
    case Or(l, r) => Spellable(l) && Spellable(r)
    case Group(inner) => Spellable(inner)
  }

  lemma KeywordsSpelled()
    ensures Spelled("AND") && Spelled("OR") && Spelled("WITH") && Spelled("(") && Spelled(")")
  {
  }

  lemma {:induction false} PrintSpells(t: Tree)
    requires Spellable(t)
    ensures AllSpelled(Print(t))
  {
    KeywordsSpelled();
    match t
    case License(_) =>
    case Excepted(_, _) =>
    case And(l, r) =>
      PrintSpells(l); PrintSpells(r);
      JoinSpelled(Print(l), "AND", Print(r));
    case Or(l, r) =>
      PrintSpells(l); PrintSpells(r);
      JoinSpelled(Print(l), "OR", Print(r));
    case Group(inner) =>
      PrintSpells(inner);
      JoinSpelled([], "(", Print(inner));
      JoinSpelled(["("] + Print(inner), ")", []);
  }

  lemma {:induction false} StylesSpell(t: Tree)
    requires Spellable(t)
    ensures Spellable(Minimal(t)) && Spellable(Full(t))
  {
    match t
    case License(_) =>
    case Excepted(_, _) =>
    case And(l, r) => StylesSpell(l); StylesSpell(r);
    case Or(l, r) => StylesSpell(l); StylesSpell(r);
    case Group(inner) => StylesSpell(inner);
  }

  lemma TextReadsBack(t: Tree)
    requires Spellable(t)
    ensures Tokens(Render(Print(t))) == Print(t)
  {
    PrintSpells(t);
    RenderReads(Print(t));
    RenderHasNoSlash(Print(t));
    NoSlashes(Render(Print(t)));
  }

  /** Text to decision and back: any expression written out in either style is decided by
      whether allowed licences satisfy it. */
  lemma DeclaredTextDecides(t: Tree)
    requires OperandsNamed(t) && Spellable(t)
    ensures DeclaredAllowed(Render(Print(Minimal(t)))) <==> Satisfied(t, DECLARED_ALLOWED)
    ensures DeclaredAllowed(Render(Print(Full(t)))) <==> Satisfied(t, DECLARED_ALLOWED)
  {
    StylesSpell(t);
    TextReadsBack(Minimal(t));
    TextReadsBack(Full(t));
    PrintingStyles(t, DECLARED_ALLOWED);
  }
}
