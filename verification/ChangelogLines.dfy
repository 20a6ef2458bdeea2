/** The kind of a changelog line, from its text (the regular expressions of
    scripts/platform-release.py), and the text-level round trip. */
module ChangelogLines {

  import opened Options
  import opened Text
  import opened Changelog
  import opened ChangelogRoundTrip

  function AfterPrefix(s: string, prefix: string): Option<string> {
    if prefix <= s then Some(s[|prefix|..]) else None
  }

  const OPENING: string := "<a id=\""
  const CLOSING: string := "\"></a>"

  /** `<a id="([^"]+)"></a>`, matched in full. */
  function TagOf(s: string): Option<string> {
    if OPENING <= s && |s| > |OPENING| + |CLOSING| && s[|s| - |CLOSING|..] == CLOSING && '"' !in s[|OPENING|..|s| - |CLOSING|]
    then Some(s[|OPENING|..|s| - |CLOSING|]) else None
  }

  /** How far the characters that are not white space reach. */
  function WordLength(s: string): (n: nat)
    ensures n <= |s| && (forall i | 0 <= i < n :: !Space(s[i])) && (n < |s| ==> Space(s[n]))
  {
    if s == [] || Space(s[0]) then 0 else 1 + WordLength(s[1..])
  }

  /** A component's title and the space after it. */
  function TitleOf(s: string): Option<(Component, string)> {
    if "Platform " <= s then Some((Platform, s[9..]))
    else if "Runner " <= s then Some((Runner, s[7..]))
    else if "MCP server " <= s then Some((McpServer, s[11..]))
    else None
  }

  predicate IsDigit(c: char) { '0' <= c <= '9' }

  const UNPUBLISHED_DATE: string := "TODO(publish-date)"

  predicate IsDate(s: string) {
    || s == UNPUBLISHED_DATE
    || (|s| == 10 && s[4] == '-' && s[7] == '-' && forall i | 0 <= i < 10 && i != 4 && i != 7 :: IsDigit(s[i]))
  }

  const DASH: string := " \U{2014} "

  function ReleaseKind(component: Component, rest: string): Option<Kind> {
    var n := WordLength(rest);
    var date := AfterPrefix(rest[n..], DASH);
    if n > 0 && date.Some? && IsDate(date.value) then Some(Release(component, rest[..n], date.value)) else None
  }

  /** A `## ` line. */
  function HeadingKind(text: string): Kind
    requires "## " <= text
  {
    var titled := TitleOf(text[3..]);
    var release := if titled.Some? then ReleaseKind(titled.value.0, titled.value.1) else None;
    if release.Some? then release.value
    else if text == "## Unreleased" then UnreleasedHeading
    else OtherHeading
  }

  /** `### Component version`, matched in full. */
  function SubHeadingOf(text: string): Option<Kind> {
    var after := AfterPrefix(text, "### ");
    if after.None? then None
    else
      var titled := TitleOf(after.value);
      if titled.Some? && titled.value.1 != [] && WordLength(titled.value.1) == |titled.value.1|
      then Some(SubHeading(titled.value.0, titled.value.1)) else None
  }

  function Classify(text: string): Kind {
    var tag := TagOf(Strip(text));
    if tag.Some? then Anchor(tag.value)
    else if "## " <= text then HeadingKind(text)
    else if Strip(text) == "---" then Rule
    else
      var sub := SubHeadingOf(text);
      if sub.Some? then sub.value else if Strip(text) == [] then Blank else Plain
  }

  function Classified(texts: seq<string>): seq<Line> {
    if texts == [] then [] else [Line(Classify(texts[0]), texts[0])] + Classified(texts[1..])
  }

  /** `parse_changelog` on the text of the file. */
  method ParseText(text: string) returns (log: Option<Changelog>)
    ensures log == Parse(Classified(SplitLines(text)))
  {
    log := ParseChangelog(Classified(SplitLines(text)));
  }

  // ------------------------------------------------- what each kind of line looks like

  /** A run of characters that are no white space. */
  predicate IsWord(s: string) { s != [] && forall i | 0 <= i < |s| :: !Space(s[i]) }

  ghost predicate AnchorText(s: string, tag: string) {
    s == "<a id=\"" + tag + "\"></a>" && tag != [] && '"' !in tag
  }

  lemma TagOfIff(s: string, tag: string)
    ensures TagOf(s) == Some(tag) <==> AnchorText(s, tag)
  {
    var whole := OPENING + tag + CLOSING;
    assert whole[|OPENING|..|whole| - |CLOSING|] == tag && whole[|whole| - |CLOSING|..] == CLOSING;
    if TagOf(s) == Some(tag) {
      assert s == s[..|OPENING|] + s[|OPENING|..|s| - |CLOSING|] + s[|s| - |CLOSING|..];
    }
  }

  /** A line is an anchor exactly when, stripped, it is `<a id="tag"></a>`. */
  lemma AnchorIff(text: string, tag: string)
    ensures Classify(text) == Anchor(tag) <==> AnchorText(Strip(text), tag)
  {
    TagOfIff(Strip(text), tag);
  }

  lemma {:induction false} StripKeepsFirst(s: string)
    requires s != [] && !Space(s[0])
    ensures Strip(s) != [] && Strip(s)[0] == s[0]
  {
    if Space(s[|s| - 1]) { StripKeepsFirst(s[..|s| - 1]); }
  }

  /** A line that starts with `#` is no anchor, no rule and not blank. */
  lemma HashIsNoAnchor(text: string)
    requires text != [] && text[0] == '#'
    ensures TagOf(Strip(text)).None? && Strip(text) != "---" && Strip(text) != []
  {
    StripKeepsFirst(text);
    assert OPENING[0] == '<' && "---"[0] == '-';
  }

  lemma StripKeeps(s: string)
    requires s != [] && !Space(s[0]) && !Space(s[|s| - 1])
    ensures Strip(s) == s
  {
  }

  lemma TitleRecognized(component: Component, rest: string)
    ensures TitleOf(Title(component) + " " + rest) == Some((component, rest))
  {
    var s := Title(component) + " " + rest;
    match component
    case Platform => assert s[..9] == "Platform " && s[9..] == rest;
    case Runner => assert s[..7] == "Runner " && s[7..] == rest; assert s[0] == 'R';
    case McpServer => assert s[..11] == "MCP server " && s[11..] == rest; assert s[0] == 'M';
  }

  lemma TitleRead(s: string, component: Component, rest: string)
    requires TitleOf(s) == Some((component, rest))
    ensures s == Title(component) + " " + rest
  {
    match component
    case Platform => assert s == s[..9] + rest;
    case Runner => assert s == s[..7] + rest;
    case McpServer => assert s == s[..11] + rest;
  }

  ghost predicate DateText(s: string, year: string, month: string, day: string) {
    && s == year + "-" + month + "-" + day && |year| == 4 && |month| == 2 && |day| == 2
    && (forall i | 0 <= i < 4 :: '0' <= year[i] <= '9')
    && (forall i | 0 <= i < 2 :: '0' <= month[i] <= '9' && '0' <= day[i] <= '9')
  }

  lemma DateRead(s: string)
    requires IsDate(s) && s != UNPUBLISHED_DATE
    ensures DateText(s, s[..4], s[5..7], s[8..])
  {
    assert s[..4] + "-" == s[..5] && s[..5] + s[5..7] == s[..7] && s[..7] + "-" == s[..8];
  }

  /** Four, two and two digits, or the mark of a release that is not out yet. */
  lemma DateIff(s: string)
    ensures IsDate(s) <==> s == "TODO(publish-date)" || exists year, month, day :: DateText(s, year, month, day)
  {
    if IsDate(s) && s != UNPUBLISHED_DATE { DateRead(s); }
    if year, month, day :| DateText(s, year, month, day) {
      assert forall i | 0 <= i < 4 :: s[i] == year[i];
      assert s[4] == '-' && s[5] == month[0] && s[6] == month[1] && s[7] == '-' && s[8] == day[0] && s[9] == day[1];
    }
  }

  lemma {:induction false} WordStops(word: string, rest: string)
    requires (forall i | 0 <= i < |word| :: !Space(word[i])) && (rest == [] || Space(rest[0]))
    ensures WordLength(word + rest) == |word|
  {
    if word == [] {
      assert word + rest == rest;
    } else {
      assert (word + rest)[1..] == word[1..] + rest;
      WordStops(word[1..], rest);
    }
  }

  lemma ReleaseRecognized(component: Component, version: string, date: string)
    requires IsWord(version) && IsDate(date)
    ensures ReleaseKind(component, version + (DASH + date)) == Some(Release(component, version, date))
  {
    var rest := version + (DASH + date);
    WordStops(version, DASH + date);
    assert rest[..|version|] == version && rest[|version|..] == DASH + date;
    assert (DASH + date)[|DASH|..] == date;
  }

  lemma ReleaseRead(title: Component, rest: string, component: Component, version: string, date: string)
    requires ReleaseKind(title, rest) == Some(Release(component, version, date))
    ensures component == title && rest == version + (DASH + date) && IsWord(version) && IsDate(date)
  {
    var n := WordLength(rest);
    assert rest == rest[..n] + rest[n..];
    assert rest[n..] == DASH + rest[n..][|DASH|..];
  }

  /** The text of a release heading after `## `. */
  function ReleaseText(component: Component, version: string, date: string): string {
    Title(component) + " " + (version + (" \U{2014} " + date))
  }

  lemma HeadingPrefix(rest: string)
    ensures "## " <= "## " + rest && ("## " + rest)[3..] == rest && ("## " + rest)[0] == '#'
  {
  }

  lemma HeadingRead(text: string, component: Component, version: string, date: string)
    requires "## " <= text && HeadingKind(text) == Release(component, version, date)
    ensures text == "## " + ReleaseText(component, version, date) && IsWord(version) && IsDate(date)
  {
    var titled := TitleOf(text[3..]);
    TitleRead(text[3..], titled.value.0, titled.value.1);
    ReleaseRead(titled.value.0, titled.value.1, component, version, date);
    assert text == "## " + text[3..];
  }

  /** A line is a release heading exactly when it is `## Component version — date`. */
  lemma ReleaseIff(text: string, component: Component, version: string, date: string)
    ensures Classify(text) == Release(component, version, date) <==>
            text == "## " + ReleaseText(component, version, date) && IsWord(version) && IsDate(date)
  {
    if text == "## " + ReleaseText(component, version, date) && IsWord(version) && IsDate(date) {
      HeadingPrefix(ReleaseText(component, version, date));
      HashIsNoAnchor(text);
      TitleRecognized(component, version + (DASH + date));
      ReleaseRecognized(component, version, date);
    }
    if Classify(text) == Release(component, version, date) {
      ClassifiedHeading(text);
      HeadingRead(text, component, version, date);
    }
  }

  /** Only a line that starts with `## ` is a heading, and every such line is one. */
  lemma ClassifiedHeading(text: string)
    ensures Heading(Classify(text)) <==> "## " <= text
    ensures "## " <= text ==> Classify(text) == HeadingKind(text)
  {
    if "## " <= text {
      assert text[0] == "## "[0];
      HashIsNoAnchor(text);
    }
  }

  /** `## Unreleased` alone opens the unreleased part; every other `## ` line that is no release is
      another section. */
  lemma UnreleasedHeadingIff(text: string)
    ensures Classify(text) == UnreleasedHeading <==> text == "## Unreleased"
    ensures Classify(text) == OtherHeading <==> "## " <= text && !Classify(text).Release? && text != "## Unreleased"
  {
    ClassifiedHeading(text);
    if text == "## Unreleased" {
      HeadingPrefix("Unreleased");
      assert "## Unreleased" == "## " + "Unreleased";
      assert "Unreleased"[0] == 'U';
    }
  }

  lemma SubHeadingRead(text: string, component: Component, version: string)
    requires SubHeadingOf(text) == Some(SubHeading(component, version))
    ensures text == "### " + (Title(component) + " " + version) && IsWord(version)
  {
    TitleRead(text[4..], component, version);
    assert text == "### " + text[4..];
  }

  lemma SubHeadingPrefix(rest: string)
    ensures var text := "### " + rest;
      text[0] == '#' && !("## " <= text) && "### " <= text && text[4..] == rest
  {
    var text := "### " + rest;
    assert text[2] == '#' && "## "[2] == ' ';
  }

  lemma WholeWord(version: string)
    requires IsWord(version)
    ensures WordLength(version) == |version|
  {
    WordStops(version, "");
    assert version + "" == version;
  }

  lemma SubHeadingRecognized(component: Component, version: string)
    requires IsWord(version)
    ensures Classify("### " + (Title(component) + " " + version)) == SubHeading(component, version)
  {
    SubHeadingPrefix(Title(component) + " " + version);
    HashIsNoAnchor("### " + (Title(component) + " " + version));
    TitleRecognized(component, version);
    WholeWord(version);
  }

  lemma SubHeadingStart(text: string)
    requires SubHeadingOf(text).Some?
    ensures text != [] && text[0] == '#'
  {
    assert text[0] == "### "[0];
  }

  /** A line announces a version exactly when it is `### Component version`. */
  lemma SubHeadingIff(text: string, component: Component, version: string)
    ensures Classify(text) == SubHeading(component, version) <==>
            text == "### " + (Title(component) + " " + version) && IsWord(version)
  {
    if text == "### " + (Title(component) + " " + version) && IsWord(version) { SubHeadingRecognized(component, version); }
    if Classify(text) == SubHeading(component, version) {
      ClassifiedHeading(text);
      SubHeadingRead(text, component, version);
    }
  }

  /** A rule is `---` and a blank line nothing, once stripped. */
  lemma RuleAndBlankIff(text: string)
    ensures Classify(text) == Rule <==> Strip(text) == "---"
    ensures Classify(text) == Blank <==> Strip(text) == ""
  {
    assert OPENING[0] == '<' && "---"[0] == '-';
    if "## " <= text {
      assert text[0] == "## "[0];
      HashIsNoAnchor(text);
    }
    if SubHeadingOf(text).Some? {
      SubHeadingStart(text);
      HashIsNoAnchor(text);
    }
  }

  // -------------------------------------------------- rendered lines are recognized

  lemma AnchorRecognized(tag: string)
    requires tag != [] && '"' !in tag
    ensures Classify(AnchorLine(tag).text) == Anchor(tag)
  {
    var s := AnchorLine(tag).text;
    StripKeeps(s);
    AnchorIff(s, tag);
  }

  lemma HeadingText(component: Component, version: string, date: string)
    ensures HeadingLine(component, version, date).text == "## " + ReleaseText(component, version, date)
  {
    var title := Title(component);
    assert "## " + title + " " + version + DASH + date == "## " + (title + " " + (version + (DASH + date)));
  }

  lemma HeadingRecognized(component: Component, version: string, date: string)
    requires IsWord(version) && IsDate(date)
    ensures Classify(HeadingLine(component, version, date).text) == Release(component, version, date)
  {
    HeadingText(component, version, date);
    ReleaseIff(HeadingLine(component, version, date).text, component, version, date);
  }

  lemma FixedLinesRecognized()
    ensures Classify("") == Blank && Classify("---") == Rule && Classify("## Unreleased") == UnreleasedHeading
  {
    StripKeeps("---");
    RuleAndBlankIff("---");
    RuleAndBlankIff("");
    UnreleasedHeadingIff("## Unreleased");
  }

  // ---------------------------------------------------------- the text round trip

  /** Every line has the kind its text gives it. */
  predicate Recognized(lines: seq<Line>) {
    forall i | 0 <= i < |lines| :: Classify(lines[i].text) == lines[i].kind
  }

  predicate ItemWritable(item: Item) {
    match item
    case Announcement(_, version) => IsWord(version)
    case Ordinary(line) => Classify(line.text) == line.kind
  }

  predicate AllWritable(items: seq<Item>) { forall i | 0 <= i < |items| :: ItemWritable(items[i]) }

  predicate TagWritable(tag: string) { tag != [] && '"' !in tag }

  /** Tags, versions and dates the regular expressions admit, and ordinary lines of their own kind. */
  predicate Writable(section: Section) {
    match section
    case Published(tag, _, version, date, body) => TagWritable(tag) && IsWord(version) && IsDate(date) && AllWritable(body)
    case Unpublished(tag, note, rest) => TagWritable(tag) && ItemWritable(note) && AllWritable(rest)
    case Upcoming(items) => AllWritable(items)
    case Aside(heading, items) => Classify(heading) == OtherHeading && AllWritable(items)
    case Dropped(tag, heading, items) => TagWritable(tag) && Classify(heading) == OtherHeading && AllWritable(items)
    case Divider => true
  }

  lemma ItemRecognized(item: Item)
    requires ItemWritable(item)
    ensures Classify(ItemLine(item).text) == ItemLine(item).kind
  {
    if item.Announcement? { SubHeadingRecognized(item.component, item.version); }
  }

  lemma ItemsRecognized(items: seq<Item>)
    requires AllWritable(items)
    ensures Recognized(Lines(items))
  {
    forall i | 0 <= i < |items| ensures Classify(Lines(items)[i].text) == Lines(items)[i].kind {
      ItemRecognized(items[i]);
    }
  }

  lemma RecognizedAppend(a: seq<Line>, b: seq<Line>)
    requires Recognized(a) && Recognized(b)
    ensures Recognized(a + b)
  {
  }

  lemma RecognizedTwo(first: Line, second: Line, rest: seq<Line>)
    requires Classify(first.text) == first.kind && Classify(second.text) == second.kind && Recognized(rest)
    ensures Recognized([first, second] + rest)
  {
    RecognizedAppend([first, second], rest);
  }

  lemma PaddedRecognized(body: seq<Line>)
    requires Recognized(body)
    ensures Recognized([BLANK] + body + [BLANK])
  {
    FixedLinesRecognized();
    RecognizedAppend([BLANK], body);
    RecognizedAppend([BLANK] + body, [BLANK]);
  }

  lemma PublishedRecognized(section: Section)
    requires section.Published? && Writable(section)
    ensures Recognized(Render(section))
  {
    var Published(tag, component, version, date, body) := section;
    AnchorRecognized(tag);
    HeadingRecognized(component, version, date);
    ItemsRecognized(body);
    PaddedRecognized(Lines(body));
    RecognizedTwo(AnchorLine(tag), HeadingLine(component, version, date), [BLANK] + Lines(body) + [BLANK]);
  }

  lemma UnpublishedRecognized(section: Section)
    requires section.Unpublished? && Writable(section)
    ensures Recognized(Render(section))
  {
    AnchorRecognized(section.tag);
    ItemRecognized(section.note);
    ItemsRecognized(section.rest);
    RecognizedTwo(AnchorLine(section.tag), ItemLine(section.note), Lines(section.rest));
  }

  lemma DroppedRecognized(section: Section)
    requires section.Dropped? && Writable(section)
    ensures Recognized(Render(section))
  {
    AnchorRecognized(section.tag);
    ItemsRecognized(section.items);
    RecognizedTwo(AnchorLine(section.tag), Line(OtherHeading, section.heading), Lines(section.items));
  }

  lemma HeadedRecognized(heading: Line, items: seq<Item>)
    requires Classify(heading.text) == heading.kind && AllWritable(items)
    ensures Recognized([heading] + Lines(items))
  {
    ItemsRecognized(items);
    RecognizedAppend([heading], Lines(items));
  }

  lemma SectionRecognized(section: Section)
    requires Writable(section)
    ensures Recognized(Render(section))
  {
    match section
    case Published(_, _, _, _, _) => PublishedRecognized(section);
    case Unpublished(_, _, _) => UnpublishedRecognized(section);
    case Upcoming(items) =>
      FixedLinesRecognized();
      HeadedRecognized(Line(UnreleasedHeading, "## Unreleased"), items);
    case Aside(heading, items) => HeadedRecognized(Line(OtherHeading, heading), items);
    case Dropped(_, _, _) => DroppedRecognized(section);
    case Divider => FixedLinesRecognized();
  }

  predicate SectionsWritable(sections: seq<Section>) { forall i | 0 <= i < |sections| :: Writable(sections[i]) }

  lemma LastWritable(sections: seq<Section>)
    requires SectionsWritable(sections) && sections != []
    ensures SectionsWritable(sections[..|sections| - 1]) && Writable(sections[|sections| - 1])
  {
  }

  lemma {:induction false} AllRecognized(sections: seq<Section>)
    requires SectionsWritable(sections)
    ensures Recognized(RenderAll(sections))
  {
    if sections != [] {
      var n := |sections| - 1;
      LastWritable(sections);
      AllRecognized(sections[..n]);
      SectionRecognized(sections[n]);
      RecognizedAppend(RenderAll(sections[..n]), Render(sections[n]));
    }
  }

  lemma {:induction false} ClassifiedTexts(lines: seq<Line>)
    requires Recognized(lines)
    ensures Classified(Texts(lines)) == lines
  {
    if lines != [] {
      ClassifiedTexts(lines[1..]);
      assert lines == [lines[0]] + lines[1..];
    }
  }

  lemma {:induction false} TextAt(lines: seq<Line>, i: nat)
    requires i < |lines|
    ensures |Texts(lines)| == |lines| && Texts(lines)[i] == lines[i].text
  {
    if |lines| > 1 { TextAt(lines[1..], if i > 0 then i - 1 else 0); }
  }

  /** The text of any changelog written out, its lines without breaks inside, is read back to exactly
      its releases, unpublished tags and unreleased versions. */
  lemma TextRoundTrip(sections: seq<Section>)
    requires Consistent(sections) && SectionsWritable(sections)
    requires forall i | 0 <= i < |RenderAll(sections)| :: OneLine(RenderAll(sections)[i].text)
    ensures Parse(Classified(SplitLines(TextOf(Texts(RenderAll(sections)))))) == Some(Meaning(sections))
  {
    var lines := RenderAll(sections);
    forall i | 0 <= i < |Texts(lines)| ensures OneLine(Texts(lines)[i]) {
      if lines != [] { TextAt(lines, 0); TextAt(lines, i); }
    }
    SplitText(Texts(lines));
    AllRecognized(sections);
    ClassifiedTexts(lines);
    RoundTrip(sections);
  }
}
