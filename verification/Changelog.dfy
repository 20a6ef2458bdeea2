/** Reading CHANGELOG.md (scripts/platform-release.py): a state machine over lines.

    A line carries its text and the kind the script's regular expressions give it. */
module Changelog {

  import opened Options
  import opened Text

  datatype Component = Platform | Runner | McpServer

  /** `<a id="tag"></a>`, where the tag is never empty; `## Component version — date`; `## Unreleased`; any other `## ` line; a
      line that is `---`; `### Component version`; whitespace; anything else. */
  datatype Kind =
    | Anchor(tag: string)
    | Release(component: Component, version: string, date: string)
    | UnreleasedHeading
    | OtherHeading
    | Rule
    | SubHeading(component: Component, version: string)
    | Blank
    | Plain

  datatype Line = Line(kind: Kind, text: string)

  datatype Entry = Entry(component: Component, version: string, date: string, body: string)

  datatype Changelog = Changelog(entries: map<string, Entry>, unpublished: set<string>, unreleased: map<Component, string>)

  datatype State = State(
    log: Changelog,
    pending: Option<string>,
    bodyTag: Option<string>,
    body: seq<string>,
    inUnreleased: bool)

  const START: State := State(Changelog(map[], {}, map[]), None, None, [], false)

  predicate Heading(kind: Kind) { kind.Release? || kind.UnreleasedHeading? || kind.OtherHeading? }

  /** A line that records the anchor before it, as an entry or as an unpublished tag.  Another
      anchor and a heading that is no release drop it instead. */
  predicate Records(kind: Kind) { !kind.Anchor? && !kind.UnreleasedHeading? && !kind.OtherHeading? && !kind.Blank? }

  // ------------------------------------------------------------------ one line

  function CloseBody(s: State): State {
    if s.bodyTag.Some? && s.bodyTag.value in s.log.entries then
      var entry := s.log.entries[s.bodyTag.value].(body := Strip(Join(s.body)));
      s.(log := s.log.(entries := s.log.entries[s.bodyTag.value := entry]), body := [])
    else s.(body := [])
  }

  predicate Repeats(log: Changelog, tag: string) { tag in log.entries || tag in log.unpublished }

  /** A line that is an anchor, unless it repeats a tag. */
  function AfterAnchor(s: State, tag: string): State {
    CloseBody(s).(bodyTag := None, pending := Some(tag))
  }

  /** Headings and rules end the body; a heading decides whether this is the unreleased part. */
  function AfterHeading(s: State, kind: Kind): State {
    var closed := if Heading(kind) || kind.Rule? then CloseBody(s).(bodyTag := None) else s;
    if Heading(kind) then closed.(inUnreleased := kind.UnreleasedHeading?) else closed
  }

  function AfterUnreleased(s: State, kind: Kind): State {
    if s.inUnreleased && kind.SubHeading?
    then s.(log := s.log.(unreleased := s.log.unreleased[kind.component := kind.version]))
    else s
  }

  /** A pending anchor takes the first line that is not blank: a release heading opens its entry,
      another heading drops it, any other line makes it an unpublished tag. */
  function AfterPending(s: State, kind: Kind): State {
    if s.pending.None? || kind.Blank? then s
    else if kind.Release? then
      var entry := Entry(kind.component, kind.version, kind.date, "");
      s.(log := s.log.(entries := s.log.entries[s.pending.value := entry]), bodyTag := s.pending, pending := None)
    else if Heading(kind) then s.(pending := None)
    else s.(log := s.log.(unpublished := s.log.unpublished + {s.pending.value}), pending := None)
  }

  predicate OpensEntry(s: State, kind: Kind) { s.pending.Some? && kind.Release? }

  function Step(s: State, line: Line): Option<State> {
    if line.kind.Anchor? then
      if Repeats(CloseBody(s).log, line.kind.tag) then None else Some(AfterAnchor(s, line.kind.tag))
    else
      var seen := AfterUnreleased(AfterHeading(s, line.kind), line.kind);
      var next := AfterPending(seen, line.kind);
      if OpensEntry(seen, line.kind) || next.bodyTag.None? then Some(next)
      else Some(next.(body := next.body + [line.text]))
  }

  function Run(s: State, lines: seq<Line>): Option<State>
    decreases |lines|
  {
    if lines == [] then Some(s)
    else
      var next := Step(s, lines[0]);
      if next.None? then None else Run(next.value, lines[1..])
  }

  /** `None` when an anchor is repeated. */
  function Parse(lines: seq<Line>): Option<Changelog> {
    var end := Run(START, lines);
    if end.None? then None else Some(CloseBody(end.value).log)
  }

  function Texts(lines: seq<Line>): seq<string> {
    if lines == [] then [] else [lines[0].text] + Texts(lines[1..])
  }

  lemma {:induction false} RunAppend(s: State, a: seq<Line>, b: seq<Line>)
    requires Run(s, a).Some?
    ensures Run(s, a + b) == Run(Run(s, a).value, b)
    decreases |a|
  {
    if a == [] {
      assert a + b == b;
    } else {
      assert (a + b)[1..] == a[1..] + b;
      RunAppend(Step(s, a[0]).value, a[1..], b);
    }
  }

  lemma {:induction false} TextsAppend(a: seq<Line>, b: seq<Line>)
    ensures Texts(a + b) == Texts(a) + Texts(b)
  {
    if a == [] {
      assert a + b == b;
    } else {
      assert (a + b)[1..] == a[1..] + b;
      TextsAppend(a[1..], b);
    }
  }

  // ---------------------------------------------------------- the script itself

  class Reader {
    var entries: map<string, Entry>
    var unpublished: set<string>
    var unreleased: map<Component, string>
    var pending: Option<string>
    var bodyTag: Option<string>
    var body: seq<string>
    var inUnreleased: bool

    constructor ()
      ensures Now() == START
    {
      entries, unpublished, unreleased := map[], {}, map[];
      pending, bodyTag, body, inUnreleased := None, None, [], false;
    }

    function Now(): State
      reads this
    {
      State(Changelog(entries, unpublished, unreleased), pending, bodyTag, body, inUnreleased)
    }

    method Close()
      modifies this
      ensures Now() == CloseBody(old(Now()))
    {
      if bodyTag.Some? && bodyTag.value in entries {
        entries := entries[bodyTag.value := entries[bodyTag.value].(body := Strip(Join(body)))];
      }
      body := [];
    }

    method ReadAnchor(tag: string) returns (repeated: bool)
      modifies this
      ensures repeated == Repeats(CloseBody(old(Now())).log, tag)
      ensures !repeated ==> Now() == AfterAnchor(old(Now()), tag)
    {
      Close();
      bodyTag := None;
      pending := Some(tag);
      repeated := tag in entries || tag in unpublished;
    }

    method ReadHeading(kind: Kind)
      modifies this
      ensures Now() == AfterUnreleased(AfterHeading(old(Now()), kind), kind)
    {
      if Heading(kind) || kind.Rule? {
        Close();
        bodyTag := None;
      }
      if Heading(kind) { inUnreleased := kind.UnreleasedHeading?; }
      if inUnreleased && kind.SubHeading? { unreleased := unreleased[kind.component := kind.version]; }
    }

    method ReadLine(line: Line) returns (repeated: bool)
      modifies this
      ensures repeated <==> Step(old(Now()), line).None?
      ensures !repeated ==> Step(old(Now()), line) == Some(Now())
    {
      if line.kind.Anchor? {
        repeated := ReadAnchor(line.kind.tag);
        return;
      }
      ReadHeading(line.kind);
      if pending.Some? && !line.kind.Blank? {
        if line.kind.Release? {
          entries := entries[pending.value := Entry(line.kind.component, line.kind.version, line.kind.date, "")];
          bodyTag := pending;
          pending := None;
          return false;
        }
        if !Heading(line.kind) { unpublished := unpublished + {pending.value}; }
        pending := None;
      }
      if bodyTag.Some? { body := body + [line.text]; }
      return false;
    }
  }

  method ParseChangelog(lines: seq<Line>) returns (log: Option<Changelog>)
    ensures log == Parse(lines)
  {
    var reader := new Reader();
    for i := 0 to |lines|
      invariant Run(START, lines) == Run(reader.Now(), lines[i..])
    {
      var repeated := reader.ReadLine(lines[i]);
      if repeated { return None; }
    }
    reader.Close();
    return Some(Changelog(reader.entries, reader.unpublished, reader.unreleased));
  }

  // ------------------------------------------------------- what holds of any text

  /** No tag is both published and unpublished, a pending one is neither, and an open body has its entry. */
  ghost predicate Sane(s: State) {
    && s.log.entries.Keys !! s.log.unpublished
    && (s.pending.Some? ==> !Repeats(s.log, s.pending.value))
    && (s.bodyTag.Some? ==> s.bodyTag.value in s.log.entries)
    && (s.bodyTag.None? ==> s.body == [])
  }

  lemma CloseFacts(s: State)
    requires Sane(s)
    ensures Sane(CloseBody(s)) && CloseBody(s).log.entries.Keys == s.log.entries.Keys
  {
  }

  lemma HeadingFacts(s: State, kind: Kind)
    requires Sane(s)
    ensures var seen := AfterUnreleased(AfterHeading(s, kind), kind);
      Sane(seen) && seen.log.entries.Keys == s.log.entries.Keys && seen.pending == s.pending
  {
    CloseFacts(s);
  }

  lemma PendingSane(s: State, kind: Kind)
    requires Sane(s)
    ensures Sane(AfterPending(s, kind)) || OpensEntry(s, kind)
    ensures OpensEntry(s, kind) && s.bodyTag.None? ==> Sane(AfterPending(s, kind))
  {
  }

  lemma StepSane(s: State, line: Line)
    requires Sane(s) && Step(s, line).Some?
    ensures Sane(Step(s, line).value)
  {
    if line.kind.Anchor? {
      CloseFacts(s);
    } else {
      HeadingFacts(s, line.kind);
      PendingSane(AfterUnreleased(AfterHeading(s, line.kind), line.kind), line.kind);
    }
  }

  lemma {:induction false} RunSane(s: State, lines: seq<Line>)
    requires Sane(s) && Run(s, lines).Some?
    ensures Sane(Run(s, lines).value)
    decreases |lines|
  {
    if lines != [] {
      StepSane(s, lines[0]);
      RunSane(Step(s, lines[0]).value, lines[1..]);
    }
  }

  /** On every text that parses, published and unpublished tags are disjoint. */
  lemma TagsDisjoint(lines: seq<Line>)
    requires Parse(lines).Some?
    ensures Parse(lines).value.entries.Keys !! Parse(lines).value.unpublished
  {
    RunSane(START, lines);
    CloseFacts(Run(START, lines).value);
  }
}
