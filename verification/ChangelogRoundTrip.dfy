/** Writing a changelog and reading it back (scripts/platform-release.py). */
module ChangelogRoundTrip {

  import opened Options
  import opened Text
  import opened Changelog

  /** A line inside a section: `### Component version`, or a line that is no heading, anchor or rule. */
  datatype Item = Announcement(component: Component, version: string) | Ordinary(line: Line)

  /** A part of the file: a release under its anchor, an anchor that was never published with the
      line that says so, the unreleased part, any other `## ` section, the same under an anchor, which it drops, a rule. */
  datatype Section =
    | Published(tag: string, component: Component, version: string, date: string, body: seq<Item>)
    | Unpublished(tag: string, note: Item, rest: seq<Item>)
    | Upcoming(items: seq<Item>)
    | Aside(heading: string, items: seq<Item>)
    | Dropped(tag: string, heading: string, items: seq<Item>)
    | Divider

  function Title(component: Component): string {
    match component
    case Platform => "Platform"
    case Runner => "Runner"
    case McpServer => "MCP server"
  }

  function AnchorLine(tag: string): Line { Line(Anchor(tag), "<a id=\"" + tag + "\"></a>") }

  function HeadingLine(component: Component, version: string, date: string): Line {
    Line(Release(component, version, date), "## " + Title(component) + " " + version + " \U{2014} " + date)
  }

  function AnnouncementLine(component: Component, version: string): Line {
    Line(SubHeading(component, version), "### " + (Title(component) + " " + version))
  }

  function ItemLine(item: Item): Line {
    match item
    case Announcement(component, version) => AnnouncementLine(component, version)
    case Ordinary(line) => line
  }

  function Lines(items: seq<Item>): (lines: seq<Line>)
    ensures |lines| == |items| && forall i | 0 <= i < |items| :: lines[i] == ItemLine(items[i])
  {
    seq(|items|, i requires 0 <= i < |items| => ItemLine(items[i]))
  }

  const BLANK: Line := Line(Blank, "")

  function Render(section: Section): seq<Line> {
    match section
    case Published(tag, component, version, date, body) =>
      [AnchorLine(tag), HeadingLine(component, version, date)] + ([BLANK] + Lines(body) + [BLANK])
    case Unpublished(tag, note, rest) => [AnchorLine(tag), ItemLine(note)] + Lines(rest)
    case Upcoming(items) => [Line(UnreleasedHeading, "## Unreleased")] + Lines(items)
    case Aside(heading, items) => [Line(OtherHeading, heading)] + Lines(items)
    case Dropped(tag, heading, items) => [AnchorLine(tag), Line(OtherHeading, heading)] + Lines(items)
    case Divider => [Line(Rule, "---")]
  }

  /** A line that neither opens nor closes anything. */
  predicate Inner(line: Line) { line.kind.SubHeading? || line.kind.Blank? || line.kind.Plain? }

  predicate AllInner(lines: seq<Line>) { forall i | 0 <= i < |lines| :: Inner(lines[i]) }

  /** A line that makes the anchor before it an unpublished tag. */
  predicate Notes(kind: Kind) { kind.Plain? || kind.SubHeading? || kind.Rule? }

  predicate WellFormed(section: Section) {
    match section
    case Published(_, _, _, _, body) => AllInner(Lines(body)) && Strip(Join(Texts(Lines(body)))) == Join(Texts(Lines(body)))
    case Unpublished(_, note, rest) => Notes(ItemLine(note).kind) && AllInner(Lines(rest))
    case Upcoming(items) => AllInner(Lines(items))
    case Aside(_, items) => AllInner(Lines(items))
    case Dropped(_, _, items) => AllInner(Lines(items))
    case Divider => true
  }

  /** The versions announced in an unreleased part; a later one for the same component wins. */
  function Announced(unreleased: map<Component, string>, lines: seq<Line>): map<Component, string>
    decreases |lines|
  {
    if lines == [] then unreleased
    else
      var kind := lines[0].kind;
      Announced(if kind.SubHeading? then unreleased[kind.component := kind.version] else unreleased, lines[1..])
  }

  /** What the section means, inside an unreleased part or not. */
  function Added(log: Changelog, inside: bool, section: Section): Changelog {
    match section
    case Published(tag, component, version, date, body) =>
      log.(entries := log.entries[tag := Entry(component, version, date, Join(Texts(Lines(body))))])
    case Unpublished(tag, note, rest) =>
      log.(unpublished := log.unpublished + {tag},
           unreleased := if inside then Announced(log.unreleased, [ItemLine(note)] + Lines(rest)) else log.unreleased)
    case Upcoming(items) => log.(unreleased := Announced(log.unreleased, Lines(items)))
    case Aside(_, _) => log
    case Dropped(_, _, _) => log
    case Divider => log
  }

  predicate Fresh(log: Changelog, section: Section) {
    section.Published? || section.Unpublished? || section.Dropped? ==> !Repeats(log, section.tag)
  }

  function RenderAll(sections: seq<Section>): seq<Line> {
    if sections == [] then [] else RenderAll(sections[..|sections| - 1]) + Render(sections[|sections| - 1])
  }

  /** Headings open and end the unreleased part; unpublished tags and rules stay in it. */
  function StaysInside(inside: bool, section: Section): bool {
    match section
    case Upcoming(_) => true
    case Unpublished(_, _, _) => inside
    case Divider => inside
    case _ => false
  }

  function Inside(sections: seq<Section>): bool {
    sections != [] && StaysInside(Inside(sections[..|sections| - 1]), sections[|sections| - 1])
  }

  function Meaning(sections: seq<Section>): Changelog {
    if sections == [] then START.log
    else
      var n := |sections| - 1;
      Added(Meaning(sections[..n]), Inside(sections[..n]), sections[n])
  }

  /** Every section is well formed and no anchor repeats a published or unpublished tag. */
  predicate Consistent(sections: seq<Section>) {
    sections == [] ||
    (Consistent(sections[..|sections| - 1]) && WellFormed(sections[|sections| - 1])
     && Fresh(Meaning(sections[..|sections| - 1]), sections[|sections| - 1]))
  }

  // ------------------------------------------------------------ runs of inner lines

  lemma RunTwo(s: State, first: Line, second: Line, rest: seq<Line>)
    requires Step(s, first).Some? && Step(Step(s, first).value, second).Some?
    ensures Run(s, [first, second] + rest) == Run(Step(Step(s, first).value, second).value, rest)
  {
    var lines := [first, second] + rest;
    assert lines[1..] == [second] + rest;
    assert lines[1..][1..] == rest;
  }

  lemma RunOne(s: State, first: Line, rest: seq<Line>)
    requires Step(s, first).Some?
    ensures Run(s, [first] + rest) == Run(Step(s, first).value, rest)
  {
    assert ([first] + rest)[1..] == rest;
  }

  lemma {:induction false} BodyGrows(s: State, lines: seq<Line>)
    requires AllInner(lines) && s.pending.None? && s.bodyTag.Some? && !s.inUnreleased
    ensures Run(s, lines) == Some(s.(body := s.body + Texts(lines)))
    decreases |lines|
  {
    if lines == [] {
      assert s.body + [] == s.body;
    } else {
      var next := s.(body := s.body + [lines[0].text]);
      assert Step(s, lines[0]) == Some(next);
      BodyGrows(next, lines[1..]);
      assert next.body + Texts(lines[1..]) == s.body + Texts(lines);
    }
  }

  lemma {:induction false} LinesSkipped(s: State, lines: seq<Line>)
    requires AllInner(lines) && s.pending.None? && s.bodyTag.None? && !s.inUnreleased
    ensures Run(s, lines) == Some(s)
    decreases |lines|
  {
    if lines != [] {
      assert Step(s, lines[0]) == Some(s);
      LinesSkipped(s, lines[1..]);
    }
  }

  lemma {:induction false} LinesAnnounce(s: State, lines: seq<Line>)
    requires AllInner(lines) && s.pending.None? && s.bodyTag.None? && s.inUnreleased
    ensures Run(s, lines) == Some(s.(log := s.log.(unreleased := Announced(s.log.unreleased, lines))))
    decreases |lines|
  {
    if lines != [] {
      var next := AfterUnreleased(s, lines[0].kind);
      assert Step(s, lines[0]) == Some(next);
      LinesAnnounce(next, lines[1..]);
    }
  }

  // ------------------------------------------------------------------- one section

  /** The reader stands between sections, having read `log` so far. */
  ghost predicate Settled(s: State, log: Changelog, inside: bool) {
    Sane(s) && s.pending.None? && CloseBody(s).log == log && s.inUnreleased == inside
  }

  /** After the anchor and the heading: an open, empty body for the new entry. */
  function Opened(s: State, log: Changelog, tag: string, entry: Entry): State {
    State(log.(entries := log.entries[tag := entry]), None, Some(tag), [], false)
  }

  lemma AnchorThenHeading(s: State, log: Changelog, inside: bool, tag: string, component: Component, version: string, date: string)
    requires Settled(s, log, inside) && !Repeats(log, tag)
    ensures var anchored := Step(s, AnchorLine(tag));
      && anchored == Some(CloseBody(s).(bodyTag := None, pending := Some(tag)))
      && Step(anchored.value, HeadingLine(component, version, date)) == Some(Opened(s, log, tag, Entry(component, version, date, "")))
  {
  }

  lemma PaddedTexts(body: seq<Line>)
    ensures Texts([BLANK] + body + [BLANK]) == [""] + Texts(body) + [""]
  {
    TextsAppend([BLANK] + body, [BLANK]);
    TextsAppend([BLANK], body);
  }

  lemma PublishedRuns(s: State, log: Changelog, inside: bool, section: Section)
    requires Settled(s, log, inside) && section.Published? && WellFormed(section) && Fresh(log, section)
    ensures Run(s, Render(section)).Some? && Settled(Run(s, Render(section)).value, Added(log, inside, section), StaysInside(inside, section))
  {
    var body := Lines(section.body);
    var padded := [BLANK] + body + [BLANK];
    var entry := Entry(section.component, section.version, section.date, "");
    var open := Opened(s, log, section.tag, entry);
    AnchorThenHeading(s, log, inside, section.tag, section.component, section.version, section.date);
    RunTwo(s, AnchorLine(section.tag), HeadingLine(section.component, section.version, section.date), padded);
    BodyGrows(open, padded);
    PaddedTexts(body);
    BlankLinesStrip(Texts(body));
    OpenedSettles(s, log, inside, section.tag, entry, Texts(padded), Join(Texts(body)));
  }

  lemma OpenedSettles(s: State, log: Changelog, inside: bool, tag: string, entry: Entry, body: seq<string>, text: string)
    requires Settled(s, log, inside) && !Repeats(log, tag) && Strip(Join(body)) == text
    ensures Settled(Opened(s, log, tag, entry).(body := [] + body), log.(entries := log.entries[tag := entry.(body := text)]), false)
  {
    CloseFacts(s);
    assert [] + body == body;
    assert log.entries[tag := entry][tag := entry.(body := text)] == log.entries[tag := entry.(body := text)];
  }

  /** After an anchor and the line that makes it an unpublished tag. */
  function Noted(s: State, log: Changelog, tag: string, note: Line): State {
    var unreleased := if s.inUnreleased then Announced(log.unreleased, [note]) else log.unreleased;
    State(log.(unpublished := log.unpublished + {tag}, unreleased := unreleased), None, None, [], s.inUnreleased)
  }

  lemma AnchorThenNote(s: State, log: Changelog, inside: bool, tag: string, note: Line)
    requires Settled(s, log, inside) && !Repeats(log, tag) && Notes(note.kind)
    ensures var anchored := Step(s, AnchorLine(tag));
      anchored.Some? && Step(anchored.value, note) == Some(Noted(s, log, tag, note))
  {
    CloseFacts(s);
    NoteAnnounces(log.unreleased, note);
    var anchored := CloseBody(s).(bodyTag := None, pending := Some(tag));
    assert Step(s, AnchorLine(tag)) == Some(anchored);
    assert AfterHeading(anchored, note.kind) == anchored;
  }

  lemma NoteAnnounces(unreleased: map<Component, string>, note: Line)
    ensures Announced(unreleased, [note]) ==
            if note.kind.SubHeading? then unreleased[note.kind.component := note.kind.version] else unreleased
  {
    var rest := [note][1..];
    assert rest == [];
    assert forall u :: Announced(u, rest) == u;
  }

  lemma AnnouncedNote(unreleased: map<Component, string>, note: Line, rest: seq<Line>)
    ensures Announced(Announced(unreleased, [note]), rest) == Announced(unreleased, [note] + rest)
  {
    assert [note][1..] == [] && ([note] + rest)[1..] == rest;
  }

  lemma UnpublishedRuns(s: State, log: Changelog, inside: bool, section: Section)
    requires Settled(s, log, inside) && section.Unpublished? && WellFormed(section) && Fresh(log, section)
    ensures Run(s, Render(section)).Some?
    ensures Settled(Run(s, Render(section)).value, Added(log, inside, section), StaysInside(inside, section))
  {
    var note, rest := ItemLine(section.note), Lines(section.rest);
    var noted := Noted(s, log, section.tag, note);
    CloseFacts(s);
    AnchorThenNote(s, log, inside, section.tag, note);
    RunTwo(s, AnchorLine(section.tag), note, rest);
    if inside {
      LinesAnnounce(noted, rest);
      AnnouncedNote(log.unreleased, note, rest);
    } else {
      LinesSkipped(noted, rest);
    }
  }

  lemma UpcomingRuns(s: State, log: Changelog, inside: bool, section: Section)
    requires Settled(s, log, inside) && section.Upcoming? && WellFormed(section)
    ensures Run(s, Render(section)).Some? && Settled(Run(s, Render(section)).value, Added(log, inside, section), StaysInside(inside, section))
  {
    var next := State(log, None, None, [], true);
    CloseFacts(s);
    assert Step(s, Line(UnreleasedHeading, "## Unreleased")) == Some(next);
    RunOne(s, Line(UnreleasedHeading, "## Unreleased"), Lines(section.items));
    LinesAnnounce(next, Lines(section.items));
  }

  lemma AsideRuns(s: State, log: Changelog, inside: bool, section: Section)
    requires Settled(s, log, inside) && section.Aside? && WellFormed(section)
    ensures Run(s, Render(section)).Some? && Settled(Run(s, Render(section)).value, Added(log, inside, section), StaysInside(inside, section))
  {
    var next := State(log, None, None, [], false);
    CloseFacts(s);
    assert Step(s, Line(OtherHeading, section.heading)) == Some(next);
    RunOne(s, Line(OtherHeading, section.heading), Lines(section.items));
    LinesSkipped(next, Lines(section.items));
  }

  lemma DroppedRuns(s: State, log: Changelog, inside: bool, section: Section)
    requires Settled(s, log, inside) && section.Dropped? && WellFormed(section) && Fresh(log, section)
    ensures Run(s, Render(section)).Some? && Settled(Run(s, Render(section)).value, Added(log, inside, section), StaysInside(inside, section))
  {
    var heading := Line(OtherHeading, section.heading);
    var next := State(log, None, None, [], false);
    CloseFacts(s);
    assert Step(Step(s, AnchorLine(section.tag)).value, heading) == Some(next);
    RunTwo(s, AnchorLine(section.tag), heading, Lines(section.items));
    LinesSkipped(next, Lines(section.items));
  }

  lemma DividerRuns(s: State, log: Changelog, inside: bool)
    requires Settled(s, log, inside)
    ensures Run(s, Render(Divider)).Some? && Settled(Run(s, Render(Divider)).value, log, inside)
  {
    CloseFacts(s);
    var rule := Line(Rule, "---");
    assert Step(s, rule) == Some(State(log, None, None, [], s.inUnreleased));
    assert Render(Divider) == [rule] + [];
    RunOne(s, rule, []);
  }

  lemma SectionRuns(s: State, log: Changelog, inside: bool, section: Section)
    requires Settled(s, log, inside) && WellFormed(section) && Fresh(log, section)
    ensures Run(s, Render(section)).Some? && Settled(Run(s, Render(section)).value, Added(log, inside, section), StaysInside(inside, section))
  {
    match section
    case Published(_, _, _, _, _) => PublishedRuns(s, log, inside, section);
    case Unpublished(_, _, _) => UnpublishedRuns(s, log, inside, section);
    case Upcoming(_) => UpcomingRuns(s, log, inside, section);
    case Aside(_, _) => AsideRuns(s, log, inside, section);
    case Dropped(_, _, _) => DroppedRuns(s, log, inside, section);
    case Divider => DividerRuns(s, log, inside);
  }

  lemma {:induction false} SectionsRun(sections: seq<Section>)
    requires Consistent(sections)
    ensures Run(START, RenderAll(sections)).Some? && Settled(Run(START, RenderAll(sections)).value, Meaning(sections), Inside(sections))
  {
    if sections != [] {
      var n := |sections| - 1;
      var earlier := RenderAll(sections[..n]);
      SectionsRun(sections[..n]);
      RunAppend(START, earlier, Render(sections[n]));
      SectionRuns(Run(START, earlier).value, Meaning(sections[..n]), Inside(sections[..n]), sections[n]);
    }
  }

  /** Any changelog written out, with its releases, unpublished tags, unreleased versions, other
      sections, dropped anchors and rules in any order, is read back exactly. */
  lemma RoundTrip(sections: seq<Section>)
    requires Consistent(sections)
    ensures Parse(RenderAll(sections)) == Some(Meaning(sections))
  {
    SectionsRun(sections);
  }

  /** A tag that a section published or noted is refused as an anchor, whatever follows.  When any
      text is refused is `ChangelogPositions.RefusedIff`. */
  lemma RepeatedAnchorRefused(sections: seq<Section>, tag: string, rest: seq<Line>)
    requires Consistent(sections) && Repeats(Meaning(sections), tag)
    ensures Parse(RenderAll(sections) + ([AnchorLine(tag)] + rest)).None?
  {
    SectionsRun(sections);
    RunAppend(START, RenderAll(sections), [AnchorLine(tag)] + rest);
  }
}
