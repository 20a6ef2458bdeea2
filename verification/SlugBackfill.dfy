/** Slugs for existing boards (backend/alembic/versions/040_add_board_slug.py): slugify, then
    disambiguate within a workspace.  `lower` is Python's `str.lower`. */
module SlugBackfill {

  predicate SlugChar(c: char) { 'a' <= c <= 'z' || '0' <= c <= '9' }

  /** How many characters at the start are not slug characters. */
  function RunLength(s: string): (n: nat)
    ensures n <= |s| && (forall i | 0 <= i < n :: !SlugChar(s[i])) && (n < |s| ==> SlugChar(s[n]))
  {
    if s == [] || SlugChar(s[0]) then 0 else 1 + RunLength(s[1..])
  }

  /** Each maximal run of other characters becomes one hyphen. */
  function Hyphenated(s: string): string
    decreases |s|
  {
    if s == [] then []
    else if SlugChar(s[0]) then [s[0]] + Hyphenated(s[1..])
    else "-" + Hyphenated(s[RunLength(s)..])
  }

  function StripHyphens(s: string): string {
    if s != [] && s[0] == '-' then StripHyphens(s[1..])
    else if s != [] && s[|s| - 1] == '-' then StripHyphens(s[..|s| - 1])
    else s
  }

  function Slugify(name: string, fallback: string, lower: string -> string): string {
    var slug := StripHyphens(Hyphenated(lower(name)));
    if slug == "" then fallback else slug
  }

  // -------------------------------------------------------------------- shape

  /** Lowercase alphanumerics and hyphens, no two hyphens together. */
  ghost predicate Spaced(s: string) {
    && (forall i | 0 <= i < |s| :: 'a' <= s[i] <= 'z' || '0' <= s[i] <= '9' || s[i] == '-')
    && (forall i | 0 < i < |s| :: s[i - 1] == '-' ==> s[i] != '-')
  }

  /** And neither first nor last. */
  ghost predicate ValidSlug(s: string) {
    Spaced(s) && s != [] && s[0] != '-' && s[|s| - 1] != '-'
  }

  lemma {:induction false} HyphenatedSpaced(s: string)
    ensures Spaced(Hyphenated(s))
    ensures s != [] && SlugChar(s[0]) ==> Hyphenated(s) != [] && Hyphenated(s)[0] == s[0]
    decreases |s|
  {
    if s != [] {
      if SlugChar(s[0]) { HyphenatedSpaced(s[1..]); } else { HyphenatedSpaced(s[RunLength(s)..]); }
    }
  }

  lemma {:induction false} StripSpaced(s: string)
    requires Spaced(s)
    ensures StripHyphens(s) == [] || ValidSlug(StripHyphens(s))
    decreases |s|
  {
    if s != [] && s[0] == '-' { StripSpaced(s[1..]); }
    else if s != [] && s[|s| - 1] == '-' { StripSpaced(s[..|s| - 1]); }
  }

  const FALLBACK: string := "board"

  lemma FallbackValid()
    ensures ValidSlug(FALLBACK)
  {
    assert forall i | 0 <= i < |FALLBACK| :: SlugChar(FALLBACK[i]) && FALLBACK[i] != '-';
  }

  /** Whatever the name, the slug is valid when the fallback is. */
  lemma SlugifyValid(name: string, fallback: string, lower: string -> string)
    requires ValidSlug(fallback)
    ensures ValidSlug(Slugify(name, fallback, lower))
  {
    HyphenatedSpaced(lower(name));
    StripSpaced(Hyphenated(lower(name)));
  }

  // ---------------------------------------------------------- the words of a name

  /** The maximal runs of small letters and digits, in order. */
  function Words(s: string): (words: seq<string>)
    ensures s != [] && ('a' <= s[0] <= 'z' || '0' <= s[0] <= '9') ==> words != []
  {
    if s == [] then []
    else if !('a' <= s[0] <= 'z' || '0' <= s[0] <= '9') then Words(s[1..])
    else if |s| == 1 || !('a' <= s[1] <= 'z' || '0' <= s[1] <= '9') then [[s[0]]] + Words(s[1..])
    else var later := Words(s[1..]); [[s[0]] + later[0]] + later[1..]
  }

  /** Words with a hyphen between each two. */
  function Hyphens(words: seq<string>): string {
    if words == [] then [] else if |words| == 1 then words[0] else words[0] + "-" + Hyphens(words[1..])
  }

  lemma {:induction false} WordsSkip(s: string, n: nat)
    requires n <= |s| && forall i | 0 <= i < n :: !SlugChar(s[i])
    ensures Words(s) == Words(s[n..])
  {
    if n > 0 {
      WordsSkip(s[1..], n - 1);
      assert s[1..][n - 1..] == s[n..];
    }
  }

  /** One hyphen where the text starts or ends with another character. */
  function Edge(other: bool): string { if other then "-" else "" }

  /** The text with its runs replaced, in terms of its words. */
  ghost predicate Shape(s: string, h: string) {
    if Words(s) == [] then h == Edge(s != [])
    else s != [] && h == Edge(!SlugChar(s[0])) + Hyphens(Words(s)) + Edge(!SlugChar(s[|s| - 1]))
  }

  lemma GrowFirst(c: char, words: seq<string>)
    requires words != []
    ensures Hyphens([[c] + words[0]] + words[1..]) == [c] + Hyphens(words)
  {
    var more := [[c] + words[0]] + words[1..];
    assert more[1..] == words[1..];
    if |words| > 1 {
      assert [c] + words[0] + "-" + Hyphens(words[1..]) == [c] + (words[0] + "-" + Hyphens(words[1..]));
    }
  }

  lemma NewFirst(c: char, words: seq<string>)
    requires words != []
    ensures Hyphens([[c]] + words) == [c] + "-" + Hyphens(words)
  {
    assert ([[c]] + words)[1..] == words;
  }

  lemma WordsOfNone(s: string)
    requires Words(s) == [] && s != []
    ensures !SlugChar(s[0]) && !SlugChar(s[|s| - 1])
    decreases |s|
  {
    if |s| > 1 { WordsOfNone(s[1..]); }
  }

  lemma Regroup(front: string, edge: string, core: string, end: string)
    ensures front + (edge + core + end) == front + edge + core + end
    ensures "" + (front + edge + core) + end == front + edge + core + end
  {
  }

  /** A slug character in front that joins the first word. */
  lemma JoinsWord(s: string)
    requires |s| > 1 && SlugChar(s[0]) && SlugChar(s[1]) && Shape(s[1..], Hyphenated(s[1..]))
    ensures Shape(s, Hyphenated(s))
  {
    var words, end := Words(s[1..]), Edge(!SlugChar(s[|s| - 1]));
    GrowFirst(s[0], words);
    Regroup([s[0]], "", Hyphens(words), end);
    assert [s[0]] + "" == [s[0]];
  }

  /** One that is a word of its own, with another word after it. */
  lemma StandsApart(s: string)
    requires |s| > 1 && SlugChar(s[0]) && !SlugChar(s[1]) && Words(s[1..]) != [] && Shape(s[1..], Hyphenated(s[1..]))
    ensures Shape(s, Hyphenated(s))
  {
    var words, end := Words(s[1..]), Edge(!SlugChar(s[|s| - 1]));
    NewFirst(s[0], words);
    Regroup([s[0]], "-", Hyphens(words), end);
  }

  /** One that is the only word. */
  lemma StandsAlone(s: string)
    requires s != [] && SlugChar(s[0]) && Words(s[1..]) == [] && Shape(s[1..], Hyphenated(s[1..]))
    ensures Shape(s, Hyphenated(s))
  {
    if |s| > 1 { WordsOfNone(s[1..]); }
    assert Words(s) == [[s[0]]] + [] == [[s[0]]];
    assert Hyphens([[s[0]]]) == [s[0]];
    assert "" + [s[0]] + Edge(|s| > 1) == [s[0]] + Edge(|s| > 1);
  }

  lemma ShapeSkips(s: string)
    requires s != [] && !SlugChar(s[0]) && Shape(s[RunLength(s)..], Hyphenated(s[RunLength(s)..]))
    ensures Shape(s, Hyphenated(s))
  {
    var rest := s[RunLength(s)..];
    WordsSkip(s, RunLength(s));
    if rest == [] {
      assert "-" + "" == "-";
    } else {
      assert rest[|rest| - 1] == s[|s| - 1];
      Regroup("-", "", Hyphens(Words(rest)), Edge(!SlugChar(s[|s| - 1])));
      assert "-" + "" == "-";
    }
  }

  lemma {:induction false} HyphenatedShape(s: string)
    ensures Shape(s, Hyphenated(s))
    decreases |s|
  {
    if s != [] {
      if SlugChar(s[0]) {
        HyphenatedShape(s[1..]);
        if Words(s[1..]) == [] { StandsAlone(s); } else if SlugChar(s[1]) { JoinsWord(s); } else { StandsApart(s); }
      } else {
        HyphenatedShape(s[RunLength(s)..]);
        ShapeSkips(s);
      }
    }
  }

  lemma {:induction false} HyphensEnds(words: seq<string>)
    requires words != [] && forall i | 0 <= i < |words| :: WordOf(words[i])
    ensures var h := Hyphens(words); h != [] && h[0] != '-' && h[|h| - 1] != '-'
  {
    assert WordOf(words[0]);
    if |words| > 1 {
      HyphensEnds(words[1..]);
    }
  }

  ghost predicate WordOf(word: string) { word != [] && forall i | 0 <= i < |word| :: SlugChar(word[i]) }

  lemma {:induction false} WordsAreWords(s: string)
    ensures forall i | 0 <= i < |Words(s)| :: WordOf(Words(s)[i])
  {
    if s != [] { WordsAreWords(s[1..]); }
  }

  lemma EdgesStrip(first: bool, core: string, last: bool)
    requires core != [] && core[0] != '-' && core[|core| - 1] != '-'
    ensures StripHyphens(Edge(first) + core + Edge(last)) == core
  {
    EndStrips(core, last);
    FrontStrips(first, core + Edge(last));
    assert Edge(first) + core + Edge(last) == Edge(first) + (core + Edge(last));
  }

  lemma EndStrips(core: string, last: bool)
    requires core != [] && core[0] != '-' && core[|core| - 1] != '-'
    ensures StripHyphens(core + Edge(last)) == core
  {
    if last {
      assert (core + "-")[..|core|] == core;
    } else {
      assert core + "" == core;
    }
  }

  lemma FrontStrips(first: bool, tail: string)
    ensures StripHyphens(Edge(first) + tail) == StripHyphens(tail)
  {
    if first {
      assert ("-" + tail)[1..] == tail;
    } else {
      assert "" + tail == tail;
    }
  }

  /** The slug is the words of the lowered name with hyphens between them, or the fallback when it has none. */
  lemma SlugifyMeans(name: string, fallback: string, lower: string -> string)
    ensures Slugify(name, fallback, lower) == if Words(lower(name)) == [] then fallback else Hyphens(Words(lower(name)))
  {
    var s := lower(name);
    HyphenatedShape(s);
    if Words(s) != [] {
      WordsAreWords(s);
      HyphensEnds(Words(s));
      EdgesStrip(!SlugChar(s[0]), Hyphens(Words(s)), !SlugChar(s[|s| - 1]));
    } else if s != [] {
      assert "-"[1..] == "";
    }
  }

  // --------------------------------------------------------------- candidates

  function Digit(n: nat): char
    requires n < 10
  {
    "0123456789"[n]
  }

  function Decimal(n: nat): (s: string)
    ensures |s| > 0
  {
    if n < 10 then [Digit(n)] else Decimal(n / 10) + [Digit(n % 10)]
  }

  lemma DigitFacts(m: nat, n: nat)
    requires m < 10 && n < 10
    ensures SlugChar(Digit(m)) && (Digit(m) == Digit(n) ==> m == n)
  {
  }

  lemma {:induction false} DecimalInjective(m: nat, n: nat)
    requires Decimal(m) == Decimal(n)
    ensures m == n
    decreases m
  {
    var s, t := Decimal(m), Decimal(n);
    assert s[|s| - 1] == Digit(m % 10) && t[|t| - 1] == Digit(n % 10);
    DigitFacts(m % 10, n % 10);
    if m >= 10 && n >= 10 {
      assert Decimal(m / 10) == s[..|s| - 1] == t[..|t| - 1] == Decimal(n / 10);
      DecimalInjective(m / 10, n / 10);
    }
  }

  lemma {:induction false} DecimalDigits(n: nat)
    ensures forall i | 0 <= i < |Decimal(n)| :: SlugChar(Decimal(n)[i])
  {
    DigitFacts(n % 10, 0);
    if n >= 10 { DecimalDigits(n / 10); }
  }

  /** The number a text of digits stands for. */
  function Value(s: string): int {
    if s == [] then 0 else Value(s[..|s| - 1]) * 10 + (s[|s| - 1] as int - '0' as int)
  }

  lemma {:induction false} DecimalValue(n: nat)
    ensures Value(Decimal(n)) == n && (n > 0 ==> Decimal(n)[0] != '0')
  {
    var s := Decimal(n);
    assert s[..|s| - 1] == if n < 10 then [] else Decimal(n / 10);
    assert s[|s| - 1] as int - '0' as int == n % 10;
    if n >= 10 { DecimalValue(n / 10); }
  }

  /** foo, foo-2, foo-3, … */
  function Candidate(base: string, k: nat): string {
    if k <= 1 then base else base + "-" + Decimal(k)
  }

  lemma FirstCandidates(base: string)
    ensures Candidate(base, 1) == base && Candidate(base, 2) == base + "-2" && Candidate(base, 10) == base + "-10"
  {
    assert Decimal(2) == "2" && Decimal(10) == Decimal(1) + ["0"[0]] && Decimal(1) == "1";
  }

  lemma CandidateInjective(base: string, j: nat, k: nat)
    requires 1 <= j && 1 <= k && Candidate(base, j) == Candidate(base, k)
    ensures j == k
  {
    if j > 1 && k > 1 {
      var s, n := Candidate(base, j), |base| + 1;
      assert s[n..] == Decimal(j) && s[n..] == Decimal(k);
      DecimalInjective(j, k);
    }
  }

  lemma CandidateValid(base: string, k: nat)
    requires ValidSlug(base)
    ensures ValidSlug(Candidate(base, k))
  {
    if k > 1 { DecimalDigits(k); }
  }

  /** The first `n` candidates are `n` different slugs. */
  lemma {:induction false} CandidateCount(base: string, used: set<string>, n: nat)
    requires forall k | 1 <= k <= n :: Candidate(base, k) in used
    ensures n <= |used|
  {
    if n > 0 {
      forall k | 1 <= k <= n - 1 ensures Candidate(base, k) in used - {Candidate(base, n)} {
        if Candidate(base, k) == Candidate(base, n) { CandidateInjective(base, k, n); }
      }
      CandidateCount(base, used - {Candidate(base, n)}, n - 1);
    }
  }

  /** The n-th candidate is the first that is free. */
  ghost predicate FirstFree(base: string, used: set<string>, n: nat) {
    1 <= n && Candidate(base, n) !in used && forall k | 1 <= k < n :: Candidate(base, k) in used
  }

  /** The search ends, on the first free candidate, within one more test than slugs in use. */
  method Disambiguate(base: string, used: set<string>) returns (candidate: string, tests: nat)
    ensures candidate == Candidate(base, tests) && FirstFree(base, used, tests)
    ensures tests <= |used| + 1
  {
    candidate := base;
    var counter := 2;
    while candidate in used
      invariant counter >= 2 && candidate == Candidate(base, counter - 1)
      invariant forall k | 1 <= k < counter - 1 :: Candidate(base, k) in used
      invariant counter - 2 <= |used|
      decreases |used| + 2 - counter
    {
      CandidateCount(base, used, counter - 1);
      candidate := base + "-" + Decimal(counter);
      counter := counter + 1;
    }
    tests := counter - 1;
  }

  // ----------------------------------------------------------------- backfill

  datatype Board = Board(workspace: string, name: string)

  /** The slugs given so far to boards of this workspace. */
  ghost function UsedIn(boards: seq<Board>, slugs: seq<string>, workspace: string): set<string>
    requires |slugs| <= |boards|
  {
    set i | 0 <= i < |slugs| && boards[i].workspace == workspace :: slugs[i]
  }

  function Lookup(taken: map<string, set<string>>, workspace: string): set<string> {
    if workspace in taken then taken[workspace] else {}
  }

  /** Each slug is the first free candidate for its name among those given earlier in its workspace. */
  ghost predicate FirstFreeEach(boards: seq<Board>, slugs: seq<string>, lower: string -> string)
    requires |slugs| <= |boards|
  {
    forall i | 0 <= i < |slugs| :: Chosen(boards, slugs, i, lower)
  }

  ghost predicate Chosen(boards: seq<Board>, slugs: seq<string>, i: nat, lower: string -> string)
    requires i < |slugs| <= |boards|
  {
    var base := Slugify(boards[i].name, "board", lower);
    exists n :: slugs[i] == Candidate(base, n) && FirstFree(base, UsedIn(boards, slugs[..i], boards[i].workspace), n)
  }

  lemma ChosenStays(boards: seq<Board>, slugs: seq<string>, slug: string, i: nat, lower: string -> string)
    requires i < |slugs| < |boards| && Chosen(boards, slugs, i, lower)
    ensures Chosen(boards, slugs + [slug], i, lower)
  {
    assert (slugs + [slug])[..i] == slugs[..i];
  }

  lemma UsedGrows(boards: seq<Board>, slugs: seq<string>, slug: string, workspace: string)
    requires |slugs| < |boards|
    ensures UsedIn(boards, slugs + [slug], workspace) ==
            UsedIn(boards, slugs, workspace) + if boards[|slugs|].workspace == workspace then {slug} else {}
  {
    var more := slugs + [slug];
    forall s | s in UsedIn(boards, slugs, workspace) ensures s in UsedIn(boards, more, workspace) {
      var i :| 0 <= i < |slugs| && boards[i].workspace == workspace && slugs[i] == s;
      assert more[i] == s;
    }
    assert more[|slugs|] == slug;
  }

  lemma OneMoreChosen(boards: seq<Board>, slugs: seq<string>, slug: string, n: nat, lower: string -> string)
    requires |slugs| < |boards| && FirstFreeEach(boards, slugs, lower)
    requires var board := boards[|slugs|]; var base := Slugify(board.name, FALLBACK, lower);
      slug == Candidate(base, n) && FirstFree(base, UsedIn(boards, slugs, board.workspace), n)
    ensures FirstFreeEach(boards, slugs + [slug], lower)
  {
    var more := slugs + [slug];
    assert more[..|slugs|] == slugs;
    forall j | 0 <= j < |more| ensures Chosen(boards, more, j, lower) {
      if j < |slugs| { ChosenStays(boards, slugs, slug, j, lower); }
    }
  }

  method Backfill(boards: seq<Board>, lower: string -> string) returns (slugs: seq<string>)
    ensures |slugs| == |boards| && FirstFreeEach(boards, slugs, lower)
  {
    slugs := [];
    var taken: map<string, set<string>> := map[];
    for i := 0 to |boards|
      invariant |slugs| == i && FirstFreeEach(boards, slugs, lower)
      invariant forall workspace :: Lookup(taken, workspace) == UsedIn(boards, slugs, workspace)
    {
      var workspace := boards[i].workspace;
      var used := Lookup(taken, workspace);
      var slug, n := Disambiguate(Slugify(boards[i].name, FALLBACK, lower), used);
      forall w { UsedGrows(boards, slugs, slug, w); }
      OneMoreChosen(boards, slugs, slug, n, lower);
      slugs := slugs + [slug];
      taken := taken[workspace := used + {slug}];
    }
  }

  /** For every list of boards and names: valid slugs, pairwise distinct within a workspace, so the
      unique constraint that follows holds. */
  lemma SlugsValidAndUnique(boards: seq<Board>, slugs: seq<string>, lower: string -> string, j: nat)
    requires |slugs| == |boards| && FirstFreeEach(boards, slugs, lower)
    requires j < |boards|
    ensures ValidSlug(slugs[j])
    ensures forall i | 0 <= i < j && boards[i].workspace == boards[j].workspace :: slugs[i] != slugs[j]
  {
    assert Chosen(boards, slugs, j, lower);
    var base := Slugify(boards[j].name, FALLBACK, lower);
    FallbackValid();
    SlugifyValid(boards[j].name, FALLBACK, lower);
    var n :| slugs[j] == Candidate(base, n) && FirstFree(base, UsedIn(boards, slugs[..j], boards[j].workspace), n);
    CandidateValid(base, n);
    forall i | 0 <= i < j && boards[i].workspace == boards[j].workspace ensures slugs[i] != slugs[j] {
      assert slugs[..j][i] == slugs[i];
    }
  }
}
