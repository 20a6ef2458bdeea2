/** SHA256SUMS written and verified (companion/scripts/bundle.py).  `hash` is an injective digest
    whose text has no white space.  `find(name)` is the content of the regular file at that path
    from the bundle's folder, wherever the path leads. */
module Checksums {

  import opened Containers
  import opened Options
  import opened Text

  const SUMS: string := "SHA256SUMS"

  /** File contents by relative name. */
  type Tree = map<string, string>

  datatype Problem = Missing(name: string) | Mismatch(name: string) | NotListed(name: string)

  function Files(tree: Tree): set<string> { set name | name in tree && name != SUMS }

  ghost predicate Digest(hash: string -> string) {
    && (forall a, b :: hash(a) == hash(b) ==> a == b)
    && (forall a :: ' ' !in hash(a) && OneLine(hash(a)))
  }

  // --------------------------------------------------------------------- one line

  function SumLine(digest: string, name: string): string { digest + "  " + name }

  /** Where the first two spaces in a row are. */
  function Gap(line: string): (k: nat)
    ensures k <= |line|
  {
    if |line| < 2 then |line| else if line[0] == ' ' && line[1] == ' ' then 0 else 1 + Gap(line[1..])
  }

  datatype Parsed = Pair(digest: string, name: string) | Bad

  /** `digest, name = line.split("  ", 1)`; `Bad` when there is no gap to split at. */
  function ParseLine(line: string): Parsed {
    var k := Gap(line);
    if k + 2 <= |line| then Pair(line[..k], line[k + 2..]) else Bad
  }

  lemma {:induction false} GapAfterDigest(digest: string, name: string)
    requires ' ' !in digest
    ensures Gap(SumLine(digest, name)) == |digest|
  {
    if digest != [] {
      var line := SumLine(digest, name);
      assert line[1..] == SumLine(digest[1..], name);
      assert line[0] == digest[0];
      GapAfterDigest(digest[1..], name);
    }
  }

  lemma LineRoundTrip(digest: string, name: string)
    requires ' ' !in digest
    ensures ParseLine(SumLine(digest, name)) == Pair(digest, name)
  {
    GapAfterDigest(digest, name);
    var line := SumLine(digest, name);
    assert line[..|digest|] == digest && line[|digest| + 2..] == name;
  }

  predicate DoubleAt(line: string, i: nat) { i + 1 < |line| && line[i] == ' ' && line[i + 1] == ' ' }

  lemma {:induction false} GapIsFirst(line: string)
    ensures Gap(line) == |line| || DoubleAt(line, Gap(line))
    ensures forall i: nat | i < Gap(line) :: !DoubleAt(line, i)
  {
    if |line| >= 2 && !DoubleAt(line, 0) {
      GapIsFirst(line[1..]);
      forall i: nat | i < Gap(line) ensures !DoubleAt(line, i) {
        if i > 0 { assert !DoubleAt(line[1..], i - 1); }
      }
    }
  }

  /** A line is split at its first two spaces in a row. */
  ghost predicate SplitAtFirst(line: string, digest: string, name: string) {
    line == digest + "  " + name && forall i: nat | i < |digest| :: !DoubleAt(line, i)
  }

  lemma ParseLineIff(line: string, digest: string, name: string)
    ensures ParseLine(line) == Pair(digest, name) <==> SplitAtFirst(line, digest, name)
  {
    var k := Gap(line);
    GapIsFirst(line);
    if ParseLine(line) == Pair(digest, name) {
      assert line == line[..k] + "  " + line[k + 2..];
    }
    if SplitAtFirst(line, digest, name) {
      assert DoubleAt(line, |digest|);
      assert k == |digest|;
      assert line[..k] == digest && line[k + 2..] == name;
    }
  }

  // ----------------------------------------------------------- write and verify

  /** One line for each file, in the order given. */
  function SumLines(tree: Tree, order: seq<string>, hash: string -> string): (lines: seq<string>)
    requires forall name | name in order :: name in tree
    ensures |lines| == |order|
    ensures forall i | 0 <= i < |order| :: lines[i] == SumLine(hash(tree[order[i]]), order[i])
  {
    seq(|order|, i requires 0 <= i < |order| && order[i] in tree => SumLine(hash(tree[order[i]]), order[i]))
  }

  /** A later line for the same name replaces an earlier one. */
  function ListedIn(lines: seq<string>): map<string, string> {
    if lines == [] then map[]
    else
      var n := |lines| - 1;
      var earlier, last := ListedIn(lines[..n]), ParseLine(lines[n]);
      if last.Bad? then earlier else earlier[last.name := last.digest]
  }

  /** The names in the order a dictionary keeps them: where each was first put in. */
  function NamesIn(lines: seq<string>): seq<string> {
    if lines == [] then []
    else
      var n := |lines| - 1;
      var earlier, last := NamesIn(lines[..n]), ParseLine(lines[n]);
      if last.Bad? || last.name in earlier then earlier else earlier + [last.name]
  }

  ghost predicate WellFormed(lines: seq<string>) {
    forall i | 0 <= i < |lines| :: ParseLine(lines[i]).Pair?
  }

  lemma {:induction false} NamesFacts(lines: seq<string>)
    ensures Distinct(NamesIn(lines))
    ensures forall name :: name in NamesIn(lines) <==> name in ListedIn(lines)
  {
    if lines != [] { NamesFacts(lines[..|lines| - 1]); }
  }

  /** Line `k` names the file. */
  predicate NamesAt(lines: seq<string>, k: nat, name: string) {
    k < |lines| && ParseLine(lines[k]).Pair? && ParseLine(lines[k]).name == name
  }

  ghost predicate LastNamed(lines: seq<string>, k: nat, name: string) {
    NamesAt(lines, k, name) && forall j: nat | k < j :: !NamesAt(lines, j, name)
  }

  ghost predicate FirstNamed(lines: seq<string>, k: nat, name: string) {
    NamesAt(lines, k, name) && forall j: nat | j < k :: !NamesAt(lines, j, name)
  }

  lemma NamesShorter(lines: seq<string>, j: nat, name: string)
    requires lines != []
    ensures NamesAt(lines, j, name) <==>
            if j == |lines| - 1 then ParseLine(lines[j]).Pair? && ParseLine(lines[j]).name == name
            else NamesAt(lines[..|lines| - 1], j, name)
  {
  }

  /** The digest listed for a name is that of the last line that names it. */
  lemma {:induction false} ListedIff(lines: seq<string>, name: string, digest: string)
    ensures name in ListedIn(lines) && ListedIn(lines)[name] == digest <==>
            exists k: nat :: LastNamed(lines, k, name) && ParseLine(lines[k]).digest == digest
  {
    if lines != [] {
      var n := |lines| - 1;
      ListedIff(lines[..n], name, digest);
      forall j: nat { NamesShorter(lines, j, name); }
      if NamesAt(lines, n, name) {
        assert LastNamed(lines, n, name);
      } else {
        forall k: nat ensures LastNamed(lines, k, name) <==> LastNamed(lines[..n], k, name) {}
      }
    }
  }

  /** The names stand in the order of the lines that name them first. */
  lemma {:induction false} NamesInOrder(lines: seq<string>, i: nat, j: nat) returns (k: nat, l: nat)
    requires i < j < |NamesIn(lines)|
    ensures FirstNamed(lines, k, NamesIn(lines)[i]) && FirstNamed(lines, l, NamesIn(lines)[j]) && k < l
  {
    var n := |lines| - 1;
    var earlier := NamesIn(lines[..n]);
    if j < |earlier| {
      k, l := NamesInOrder(lines[..n], i, j);
      FirstStays(lines, k, earlier[i]);
      FirstStays(lines, l, earlier[j]);
    } else {
      k := FirstOf(lines[..n], i);
      l := n;
      FirstStays(lines, k, earlier[i]);
      NewName(lines);
    }
  }

  lemma FirstStays(lines: seq<string>, k: nat, name: string)
    requires lines != [] && FirstNamed(lines[..|lines| - 1], k, name)
    ensures FirstNamed(lines, k, name)
  {
    forall j: nat { NamesShorter(lines, j, name); }
  }

  lemma {:induction false} FirstOf(lines: seq<string>, i: nat) returns (k: nat)
    requires i < |NamesIn(lines)|
    ensures FirstNamed(lines, k, NamesIn(lines)[i])
  {
    var n := |lines| - 1;
    if i < |NamesIn(lines[..n])| {
      k := FirstOf(lines[..n], i);
      FirstStays(lines, k, NamesIn(lines)[i]);
    } else {
      k := n;
      NewName(lines);
    }
  }

  lemma {:induction false} NamedIsListed(lines: seq<string>, j: nat, name: string)
    requires NamesAt(lines, j, name)
    ensures name in NamesIn(lines)
  {
    var n := |lines| - 1;
    NamesShorter(lines, j, name);
    if j < n { NamedIsListed(lines[..n], j, name); }
  }

  /** A line that adds a name is the first to name it. */
  lemma NewName(lines: seq<string>)
    requires lines != [] && NamesIn(lines) != NamesIn(lines[..|lines| - 1])
    ensures var n := |lines| - 1; ParseLine(lines[n]).Pair? && FirstNamed(lines, n, ParseLine(lines[n]).name)
  {
    var n := |lines| - 1;
    var name := ParseLine(lines[n]).name;
    forall j: nat | j < n ensures !NamesAt(lines, j, name) {
      NamesShorter(lines, j, name);
      if NamesAt(lines, j, name) { NamedIsListed(lines[..n], j, name); }
    }
  }

  /** What verification reports. */
  ghost predicate Reported(find: string -> Option<string>, listed: map<string, string>, files: seq<string>, hash: string -> string, problem: Problem) {
    match problem
    case Missing(name) => name in listed && find(name).None?
    case Mismatch(name) => name in listed && find(name).Some? && hash(find(name).value) != listed[name]
    case NotListed(name) => name in files && name !in listed
  }

  function ListedProblem(find: string -> Option<string>, digest: string, hash: string -> string, name: string): seq<Problem> {
    if find(name).None? then [Missing(name)] else if hash(find(name).value) != digest then [Mismatch(name)] else []
  }

  function ListedProblems(find: string -> Option<string>, listed: map<string, string>, hash: string -> string, names: seq<string>): seq<Problem>
    requires forall i | 0 <= i < |names| :: names[i] in listed
  {
    if names == [] then []
    else
      var n := |names| - 1;
      ListedProblems(find, listed, hash, names[..n]) + ListedProblem(find, listed[names[n]], hash, names[n])
  }

  function UnlistedProblems(listed: map<string, string>, files: seq<string>): seq<Problem> {
    if files == [] then []
    else
      var n := |files| - 1;
      UnlistedProblems(listed, files[..n]) + if files[n] in listed then [] else [NotListed(files[n])]
  }

  method CheckListed(find: string -> Option<string>, listed: map<string, string>, names: seq<string>, hash: string -> string)
      returns (problems: seq<Problem>)
    requires forall i | 0 <= i < |names| :: names[i] in listed
    ensures problems == ListedProblems(find, listed, hash, names)
  {
    problems := [];
    for i := 0 to |names|
      invariant problems == ListedProblems(find, listed, hash, names[..i])
    {
      assert names[..i + 1][..i] == names[..i];
      if find(names[i]).None? {
        problems := problems + [Missing(names[i])];
      } else if hash(find(names[i]).value) != listed[names[i]] {
        problems := problems + [Mismatch(names[i])];
      }
    }
    assert names[..|names|] == names;
  }

  method CheckUnlisted(listed: map<string, string>, files: seq<string>) returns (problems: seq<Problem>)
    ensures problems == UnlistedProblems(listed, files)
  {
    problems := [];
    for i := 0 to |files|
      invariant problems == UnlistedProblems(listed, files[..i])
    {
      assert files[..i + 1][..i] == files[..i];
      if files[i] !in listed { problems := problems + [NotListed(files[i])]; }
    }
    assert files[..|files|] == files;
  }

  /** The report: problems of listed names in their order, then the files no line names. */
  function Report(find: string -> Option<string>, lines: seq<string>, files: seq<string>, hash: string -> string): seq<Problem> {
    NamesFacts(lines);
    ListedProblems(find, ListedIn(lines), hash, NamesIn(lines)) + UnlistedProblems(ListedIn(lines), files)
  }

  method ReadListed(lines: seq<string>) returns (failed: bool, listed: map<string, string>, names: seq<string>)
    ensures failed <==> !WellFormed(lines)
    ensures !failed ==> listed == ListedIn(lines) && names == NamesIn(lines)
  {
    failed, listed, names := false, map[], [];
    for i := 0 to |lines|
      invariant !failed && WellFormed(lines[..i]) && listed == ListedIn(lines[..i]) && names == NamesIn(lines[..i])
    {
      assert lines[..i + 1][..i] == lines[..i];
      var parsed := ParseLine(lines[i]);
      if parsed.Bad? { return true, listed, names; }
      if parsed.name !in names { names := names + [parsed.name]; }
      listed := listed[parsed.name := parsed.digest];
    }
    assert lines[..|lines|] == lines;
  }

  /** The lines are read, every listed file is checked, then every file must be listed.  `failed`
      stands for the ValueError of a line without a gap; `files` are the files found, sorted. */
  method VerifyChecksums(find: string -> Option<string>, text: string, files: seq<string>, hash: string -> string)
      returns (failed: bool, problems: seq<Problem>)
    ensures failed <==> !WellFormed(SplitLines(text))
    ensures !failed ==> problems == Report(find, SplitLines(text), files, hash)
  {
    var listed, names;
    failed, listed, names := ReadListed(SplitLines(text));
    problems := [];
    if !failed {
      NamesFacts(SplitLines(text));
      var first := CheckListed(find, listed, names, hash);
      var second := CheckUnlisted(listed, files);
      problems := first + second;
    }
  }

  // ------------------------------------------------------------- what is reported

  lemma {:induction false} ListedProblemsIff(find: string -> Option<string>, listed: map<string, string>, hash: string -> string, names: seq<string>, p: Problem)
    requires forall i | 0 <= i < |names| :: names[i] in listed
    ensures p in ListedProblems(find, listed, hash, names) <==> !p.NotListed? && p.name in names && Reported(find, listed, [], hash, p)
  {
    if names != [] {
      var n := |names| - 1;
      assert names == names[..n] + [names[n]];
      ListedProblemsIff(find, listed, hash, names[..n], p);
    }
  }

  lemma {:induction false} UnlistedProblemsIff(listed: map<string, string>, files: seq<string>, p: Problem)
    ensures p in UnlistedProblems(listed, files) <==> p.NotListed? && p.name in files && p.name !in listed
  {
    if files != [] {
      var n := |files| - 1;
      assert files == files[..n] + [files[n]];
      UnlistedProblemsIff(listed, files[..n], p);
    }
  }

  /** The report names exactly the missing, the mismatched and the unlisted files. */
  lemma ReportIff(find: string -> Option<string>, lines: seq<string>, files: seq<string>, hash: string -> string, p: Problem)
    ensures p in Report(find, lines, files, hash) <==> Reported(find, ListedIn(lines), files, hash, p)
  {
    NamesFacts(lines);
    ListedProblemsIff(find, ListedIn(lines), hash, NamesIn(lines), p);
    UnlistedProblemsIff(ListedIn(lines), files, p);
  }

  lemma {:induction false} ListedProblemsOnce(find: string -> Option<string>, listed: map<string, string>, hash: string -> string, names: seq<string>)
    requires (forall i | 0 <= i < |names| :: names[i] in listed) && Distinct(names)
    ensures Distinct(ListedProblems(find, listed, hash, names))
  {
    if names != [] {
      var n := |names| - 1;
      ListedProblemsOnce(find, listed, hash, names[..n]);
      forall p | p in ListedProblems(find, listed, hash, names[..n]) ensures p.name != names[n] {
        ListedProblemsIff(find, listed, hash, names[..n], p);
      }
    }
  }

  lemma {:induction false} UnlistedProblemsOnce(listed: map<string, string>, files: seq<string>)
    requires Distinct(files)
    ensures Distinct(UnlistedProblems(listed, files))
  {
    if files != [] {
      var n := |files| - 1;
      UnlistedProblemsOnce(listed, files[..n]);
      forall p | p in UnlistedProblems(listed, files[..n]) ensures p.name != files[n] {
        UnlistedProblemsIff(listed, files[..n], p);
      }
    }
  }

  lemma DistinctConcat(a: seq<Problem>, b: seq<Problem>)
    requires Distinct(a) && Distinct(b)
    requires (forall i | 0 <= i < |a| :: !a[i].NotListed?) && (forall i | 0 <= i < |b| :: b[i].NotListed?)
    ensures Distinct(a + b)
  {
  }

  /** No problem is reported twice, however often a line repeats a name. */
  lemma ReportOnce(find: string -> Option<string>, lines: seq<string>, files: seq<string>, hash: string -> string)
    requires Distinct(files)
    ensures Distinct(Report(find, lines, files, hash))
  {
    NamesFacts(lines);
    var a, b := ListedProblems(find, ListedIn(lines), hash, NamesIn(lines)), UnlistedProblems(ListedIn(lines), files);
    ListedProblemsOnce(find, ListedIn(lines), hash, NamesIn(lines));
    UnlistedProblemsOnce(ListedIn(lines), files);
    forall i | 0 <= i < |a| ensures !a[i].NotListed? { ListedProblemsIff(find, ListedIn(lines), hash, NamesIn(lines), a[i]); }
    forall i | 0 <= i < |b| ensures b[i].NotListed? { UnlistedProblemsIff(ListedIn(lines), files, b[i]); }
    DistinctConcat(a, b);
  }

  /** The problems come in the order of `names`. */
  lemma {:induction false} ListedInOrder(find: string -> Option<string>, listed: map<string, string>, hash: string -> string, names: seq<string>,
                                         i: nat, j: nat) returns (a: nat, b: nat)
    requires (forall i | 0 <= i < |names| :: names[i] in listed) && i < j < |ListedProblems(find, listed, hash, names)|
    ensures a < b < |names|
    ensures var problems := ListedProblems(find, listed, hash, names); problems[i].name == names[a] && problems[j].name == names[b]
  {
    var n := |names| - 1;
    var earlier := ListedProblems(find, listed, hash, names[..n]);
    if j < |earlier| {
      a, b := ListedInOrder(find, listed, hash, names[..n], i, j);
    } else {
      b := n;
      ListedProblemsIff(find, listed, hash, names[..n], earlier[i]);
      a :| a < n && names[..n][a] == earlier[i].name;
    }
  }

  lemma {:induction false} UnlistedInOrder(listed: map<string, string>, files: seq<string>, i: nat, j: nat) returns (a: nat, b: nat)
    requires i < j < |UnlistedProblems(listed, files)|
    ensures a < b < |files|
    ensures var problems := UnlistedProblems(listed, files); problems[i].name == files[a] && problems[j].name == files[b]
  {
    var n := |files| - 1;
    var earlier := UnlistedProblems(listed, files[..n]);
    if j < |earlier| {
      a, b := UnlistedInOrder(listed, files[..n], i, j);
    } else {
      b := n;
      UnlistedProblemsIff(listed, files[..n], earlier[i]);
      a :| a < n && files[..n][a] == earlier[i].name;
    }
  }

  /** A problem of an earlier line comes before one of a later line, all of them before the files no
      line names, and those in the order the files were found. */
  ghost predicate InOrder(lines: seq<string>, files: seq<string>, first: Problem, second: Problem) {
    if first.NotListed? then second.NotListed? && exists a: nat, b: nat :: a < b < |files| && files[a] == first.name && files[b] == second.name
    else second.NotListed? || exists k: nat, l: nat :: k < l && FirstNamed(lines, k, first.name) && FirstNamed(lines, l, second.name)
  }

  lemma ListedBefore(find: string -> Option<string>, lines: seq<string>, files: seq<string>, hash: string -> string, i: nat, j: nat)
    requires forall k | 0 <= k < |NamesIn(lines)| :: NamesIn(lines)[k] in ListedIn(lines)
    requires i < j < |ListedProblems(find, ListedIn(lines), hash, NamesIn(lines))|
    ensures var problems := ListedProblems(find, ListedIn(lines), hash, NamesIn(lines)); InOrder(lines, files, problems[i], problems[j])
  {
    var a, b := ListedInOrder(find, ListedIn(lines), hash, NamesIn(lines), i, j);
    var k, l := NamesInOrder(lines, a, b);
    ListedProblemsIff(find, ListedIn(lines), hash, NamesIn(lines), ListedProblems(find, ListedIn(lines), hash, NamesIn(lines))[i]);
  }

  lemma UnlistedAfter(listed: map<string, string>, lines: seq<string>, files: seq<string>, i: nat, j: nat)
    requires i < j < |UnlistedProblems(listed, files)|
    ensures InOrder(lines, files, UnlistedProblems(listed, files)[i], UnlistedProblems(listed, files)[j])
  {
    var a, b := UnlistedInOrder(listed, files, i, j);
    UnlistedProblemsIff(listed, files, UnlistedProblems(listed, files)[i]);
    UnlistedProblemsIff(listed, files, UnlistedProblems(listed, files)[j]);
  }

  lemma ReportInOrder(find: string -> Option<string>, lines: seq<string>, files: seq<string>, hash: string -> string, i: nat, j: nat)
    requires i < j < |Report(find, lines, files, hash)|
    ensures InOrder(lines, files, Report(find, lines, files, hash)[i], Report(find, lines, files, hash)[j])
  {
    NamesFacts(lines);
    var listed, names := ListedIn(lines), NamesIn(lines);
    var first, second := ListedProblems(find, listed, hash, names), UnlistedProblems(listed, files);
    if j < |first| {
      ListedBefore(find, lines, files, hash, i, j);
    } else if i < |first| {
      ListedProblemsIff(find, listed, hash, names, first[i]);
      UnlistedProblemsIff(listed, files, second[j - |first|]);
    } else {
      UnlistedAfter(listed, lines, files, i - |first|, j - |first|);
    }
  }

  // --------------------------------------------------------- written, then verified

  /** The order names every file but the sums themselves, once. */
  ghost predicate Enumerates(tree: Tree, order: seq<string>) {
    (forall name :: name in order <==> name in tree && name != "SHA256SUMS") && Distinct(order)
  }

  lemma SumLinesStep(tree: Tree, order: seq<string>, hash: string -> string)
    requires order != [] && forall name | name in order :: name in tree
    ensures var n := |order| - 1;
      && (forall name | name in order[..n] :: name in tree)
      && SumLines(tree, order, hash)[..n] == SumLines(tree, order[..n], hash)
  {
    assert forall name | name in order[..|order| - 1] :: name in order;
  }

  /** The listing of written lines: every name with its digest. */
  lemma {:induction false} WrittenListing(tree: Tree, order: seq<string>, hash: string -> string, name: string)
    requires (forall name | name in order :: name in tree) && Digest(hash)
    ensures var listed := ListedIn(SumLines(tree, order, hash));
      (name in listed <==> name in order) && (name in listed ==> listed[name] == hash(tree[name]))
  {
    if order != [] {
      var n := |order| - 1;
      SumLinesStep(tree, order, hash);
      WrittenListing(tree, order[..n], hash, name);
      LineRoundTrip(hash(tree[order[n]]), order[n]);
      assert order == order[..n] + [order[n]];
    }
  }

  lemma WrittenWellFormed(tree: Tree, order: seq<string>, hash: string -> string)
    requires (forall name | name in order :: name in tree) && Digest(hash)
    ensures WellFormed(SumLines(tree, order, hash))
  {
    forall i | 0 <= i < |order| ensures ParseLine(SumLines(tree, order, hash)[i]).Pair? {
      LineRoundTrip(hash(tree[order[i]]), order[i]);
    }
  }

  /** `write_checksums`. */
  function SumsText(tree: Tree, order: seq<string>, hash: string -> string): string
    requires forall name | name in order :: name in tree
  {
    TextOf(SumLines(tree, order, hash))
  }

  lemma SumLineIsOneLine(digest: string, name: string)
    requires OneLine(digest) && OneLine(name)
    ensures OneLine(SumLine(digest, name))
  {
  }

  /** The file reads back as the lines that were written, for names without line breaks. */
  lemma SumsReadBack(tree: Tree, order: seq<string>, hash: string -> string)
    requires Enumerates(tree, order) && Digest(hash) && forall name | name in Files(tree) :: OneLine(name)
    ensures SplitLines(SumsText(tree, order, hash)) == SumLines(tree, order, hash)
  {
    var lines := SumLines(tree, order, hash);
    forall i | 0 <= i < |lines| ensures OneLine(lines[i]) {
      assert order[i] in order;
      SumLineIsOneLine(hash(tree[order[i]]), order[i]);
    }
    SplitText(lines);
  }

  /** Paths that lead to the files of a tree, and to nothing where it has none. */
  ghost predicate Shows(find: string -> Option<string>, tree: Tree, names: set<string>) {
    forall name | name in names :: find(name) == if name in tree then Some(tree[name]) else None
  }

  /** After the sums are written and the tree then changed in any way, what is reported is exactly the
      files that went missing, the files whose contents changed and the files that were added. */
  lemma ReportsExactlyTheChanges(tree: Tree, order: seq<string>, now: Tree, files: seq<string>, find: string -> Option<string>,
                                 hash: string -> string, problem: Problem)
    requires Enumerates(tree, order) && Digest(hash) && forall name | name in Files(tree) :: OneLine(name)
    requires Enumerates(now, files) && Shows(find, now, Files(tree))
    ensures var lines := SplitLines(SumsText(tree, order, hash));
      && WellFormed(lines)
      && (problem in Report(find, lines, files, hash) <==>
            match problem
            case Missing(name) => name in Files(tree) && name !in now
            case Mismatch(name) => name in Files(tree) && name in now && now[name] != tree[name]
            case NotListed(name) => name in Files(now) && name !in Files(tree))
  {
    SumsReadBack(tree, order, hash);
    WrittenWellFormed(tree, order, hash);
    WrittenListing(tree, order, hash, problem.name);
    ReportIff(find, SumLines(tree, order, hash), files, hash, problem);
  }

  // ------------------------------------------------------------- an intact bundle

  lemma {:induction false} ListedIsOneLine(lines: seq<string>, name: string)
    requires (forall i | 0 <= i < |lines| :: OneLine(lines[i])) && name in ListedIn(lines)
    ensures OneLine(name)
  {
    var n := |lines| - 1;
    if name in ListedIn(lines[..n]) { ListedIsOneLine(lines[..n], name); }
  }

  /** A name with a line break is never listed. */
  lemma BrokenNameUnlisted(text: string, name: string)
    requires !OneLine(name)
    ensures name !in ListedIn(SplitLines(text))
  {
    var lines := SplitLines(text);
    forall i | 0 <= i < |lines| ensures OneLine(lines[i]) { SplitIsOneLine(text, i); }
    if name in ListedIn(lines) { ListedIsOneLine(lines, name); }
  }

  /** An untouched bundle verifies without a problem if and only if no file name has a line break. */
  lemma IntactIff(tree: Tree, order: seq<string>, find: string -> Option<string>, hash: string -> string)
    requires Enumerates(tree, order) && Digest(hash) && Shows(find, tree, Files(tree))
    ensures var lines := SplitLines(SumsText(tree, order, hash));
      WellFormed(lines) && Report(find, lines, order, hash) == [] <==> forall name | name in Files(tree) :: OneLine(name)
  {
    var lines := SplitLines(SumsText(tree, order, hash));
    if name :| name in Files(tree) && !OneLine(name) {
      BrokenNameUnlisted(SumsText(tree, order, hash), name);
      ReportIff(find, lines, order, hash, NotListed(name));
    } else {
      var report := Report(find, lines, order, hash);
      ReportsExactlyTheChanges(tree, order, tree, order, find, hash, Missing(""));
      if report != [] {
        ReportsExactlyTheChanges(tree, order, tree, order, find, hash, report[0]);
      }
    }
  }

  /** A file named with a newline: its own line is cut in two, and the second half has no gap. */
  lemma NewlineInNameFails(content: string, hash: string -> string)
    requires Digest(hash)
    ensures Enumerates(map["a\nb" := content], ["a\nb"])
    ensures !WellFormed(SplitLines(SumsText(map["a\nb" := content], ["a\nb"], hash)))
  {
    var tree: Tree := map["a\nb" := content];
    var name := "a\nb";
    assert SUMS[0] == 'S' && name[0] == 'a';
    assert Files(tree) == {name};
    assert SumLines(tree, [name], hash) == [SumLine(hash(content), name)];
    NewlineCuts(hash(content));
  }

  lemma NewlineCuts(digest: string)
    requires OneLine(digest)
    ensures !WellFormed(SplitLines(TextOf([SumLine(digest, "a\nb")])))
  {
    var first, line := digest + "  a", SumLine(digest, "a\nb");
    assert OneLine("b") && OneLine(first);
    assert TextOf([line]) == line + "\n" + TextOf([]);
    assert TextOf([line]) == first + "\n" + ("b" + "\n" + "");
    FirstLine(first, "b" + "\n" + "");
    FirstLine("b", "");
    assert SplitLines(TextOf([line]))[1] == "b";
  }
}
