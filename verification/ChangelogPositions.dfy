/** What reading CHANGELOG.md gives (scripts/platform-release.py), said of line numbers alone.

    Nothing here mentions the reader's state until the lemmas that connect the two: which anchors
    are recorded, when a text is refused, and from which lines each entry is made. */
module ChangelogPositions {

  import opened Options
  import opened Text
  import opened Changelog

  // -------------------------------------------------------------- positions in a text

  /** The anchor of `tag` stands at `i`, with only blank lines between it and line `n`. */
  predicate Waits(lines: seq<Line>, i: nat, n: nat, tag: string) {
    i < n <= |lines| && lines[i].kind == Anchor(tag) && forall k | i < k < n :: lines[k].kind.Blank?
  }

  ghost predicate SomeWaits(lines: seq<Line>, n: nat, tag: string) { exists i: nat :: Waits(lines, i, n, tag) }

  /** The anchor of `tag` at `i` is recorded by line `j`, its next line that is not blank. */
  predicate Recorded(lines: seq<Line>, i: nat, j: nat, tag: string) {
    j < |lines| && Waits(lines, i, j, tag) && Records(lines[j].kind)
  }

  ghost predicate RecordedBefore(lines: seq<Line>, n: nat, tag: string) {
    exists i: nat, j: nat :: j < n && Recorded(lines, i, j, tag)
  }

  /** Line `k` is an anchor whose tag was recorded before. */
  ghost predicate RepeatedAt(lines: seq<Line>, k: nat) {
    k < |lines| && lines[k].kind.Anchor? && RecordedBefore(lines, k, lines[k].kind.tag)
  }

  /** An anchor, a heading or a rule. */
  predicate Closes(kind: Kind) { kind.Anchor? || Heading(kind) || kind.Rule? }

  /** A release of `tag`: its anchor at `a`, its heading at `h`, and nothing up to `e` that ends its body. */
  predicate Spans(lines: seq<Line>, tag: string, entry: Entry, a: nat, h: nat, e: nat) {
    && h < e <= |lines| && Waits(lines, a, h, tag)
    && lines[h].kind == Release(entry.component, entry.version, entry.date)
    && forall k | h < k < e :: !Closes(lines[k].kind)
  }

  /** The body reaches as far as it can. */
  predicate Ends(lines: seq<Line>, e: nat) { e == |lines| || (e < |lines| && Closes(lines[e].kind)) }

  /** The entry of `tag` as the lines give it, its body included. */
  predicate Written(lines: seq<Line>, tag: string, entry: Entry, a: nat, h: nat, e: nat) {
    Spans(lines, tag, entry, a, h, e) && Ends(lines, e) && entry.body == Strip(Join(Texts(lines[h + 1..e])))
  }

  /** Line `u` opened the unreleased part that line `n` is in. */
  predicate UnreleasedSince(lines: seq<Line>, u: nat, n: nat) {
    u < n <= |lines| && lines[u].kind.UnreleasedHeading? && forall k | u < k < n :: !Heading(lines[k].kind)
  }

  ghost predicate InUnreleased(lines: seq<Line>, n: nat) { exists u: nat :: UnreleasedSince(lines, u, n) }

  /** Line `k` announces the next version of a component. */
  ghost predicate Announces(lines: seq<Line>, k: nat, component: Component) {
    k < |lines| && lines[k].kind.SubHeading? && lines[k].kind.component == component && InUnreleased(lines, k)
  }

  // ------------------------------------------------------------- reading line by line

  lemma {:induction false} RunStops(s: State, a: seq<Line>, b: seq<Line>)
    requires Run(s, a).None?
    ensures Run(s, a + b).None?
    decreases |a|
  {
    assert (a + b)[0] == a[0] && (a + b)[1..] == a[1..] + b;
    if Step(s, a[0]).Some? { RunStops(Step(s, a[0]).value, a[1..], b); }
  }

  /** Reading one line more. */
  lemma OneMore(lines: seq<Line>, n: nat)
    requires n < |lines|
    ensures var before := Run(START, lines[..n]);
      Run(START, lines[..n + 1]) == if before.None? then None else Step(before.value, lines[n])
  {
    assert lines[..n + 1] == lines[..n] + [lines[n]];
    if Run(START, lines[..n]).None? {
      RunStops(START, lines[..n], [lines[n]]);
    } else {
      RunAppend(START, lines[..n], [lines[n]]);
      RunSingle(Run(START, lines[..n]).value, lines[n]);
    }
  }

  lemma RunSingle(s: State, line: Line)
    ensures Run(s, [line]) == Step(s, line)
  {
    assert [line][1..] == [];
  }

  lemma PrefixStops(lines: seq<Line>, n: nat)
    requires n <= |lines| && Run(START, lines[..n]).None?
    ensures Run(START, lines).None?
  {
    RunStops(START, lines[..n], lines[n..]);
    assert lines == lines[..n] + lines[n..];
  }

  // ------------------------------------------------------------------ one line's effect

  lemma StepTags(s: State, line: Line, tag: string)
    requires Sane(s) && Step(s, line).Some?
    ensures var next := Step(s, line).value;
      && (next.pending == Some(tag) <==> line.kind == Anchor(tag) || (line.kind.Blank? && s.pending == Some(tag)))
      && (tag in next.log.entries <==> tag in s.log.entries || (s.pending == Some(tag) && line.kind.Release?))
      && (tag in next.log.unpublished <==>
            tag in s.log.unpublished || (s.pending == Some(tag) && Records(line.kind) && !line.kind.Release?))
  {
    if line.kind.Anchor? { CloseFacts(s); } else { HeadingFacts(s, line.kind); }
  }

  lemma SomeWaitsStep(lines: seq<Line>, n: nat, tag: string)
    requires n < |lines|
    ensures SomeWaits(lines, n + 1, tag) <==>
            lines[n].kind == Anchor(tag) || (lines[n].kind.Blank? && SomeWaits(lines, n, tag))
  {
    if lines[n].kind == Anchor(tag) {
      assert Waits(lines, n, n + 1, tag);
    } else if lines[n].kind.Blank? && SomeWaits(lines, n, tag) {
      var i: nat :| Waits(lines, i, n, tag);
      assert Waits(lines, i, n + 1, tag);
    }
    if SomeWaits(lines, n + 1, tag) {
      var i: nat :| Waits(lines, i, n + 1, tag);
      assert i < n ==> Waits(lines, i, n, tag);
    }
  }

  lemma RecordedStep(lines: seq<Line>, n: nat, tag: string)
    requires n < |lines|
    ensures RecordedBefore(lines, n + 1, tag) <==>
            RecordedBefore(lines, n, tag) || (SomeWaits(lines, n, tag) && Records(lines[n].kind))
  {
    if SomeWaits(lines, n, tag) && Records(lines[n].kind) {
      var i: nat :| Waits(lines, i, n, tag);
      assert Recorded(lines, i, n, tag);
    }
  }

  // --------------------------------------------------------------- when a text is refused

  /** After `n` lines the reader waits for exactly the anchor that waits, and repeating is refused
      for exactly the recorded tags. */
  ghost predicate TagsAt(lines: seq<Line>, n: nat, s: State, tag: string) {
    && Sane(s)
    && (s.pending == Some(tag) <==> SomeWaits(lines, n, tag))
    && (Repeats(s.log, tag) <==> RecordedBefore(lines, n, tag))
  }

  lemma {:induction false} TagsHold(lines: seq<Line>, n: nat, tag: string)
    requires n <= |lines| && Run(START, lines[..n]).Some?
    ensures TagsAt(lines, n, Run(START, lines[..n]).value, tag)
  {
    if n > 0 {
      OneMore(lines, n - 1);
      TagsHold(lines, n - 1, tag);
      var before := Run(START, lines[..n - 1]).value;
      StepSane(before, lines[n - 1]);
      StepTags(before, lines[n - 1], tag);
      SomeWaitsStep(lines, n - 1, tag);
      RecordedStep(lines, n - 1, tag);
    }
  }

  lemma {:induction false} PrefixRead(lines: seq<Line>, n: nat)
    requires n <= |lines| && forall k: nat | k < n :: !RepeatedAt(lines, k)
    ensures Run(START, lines[..n]).Some?
  {
    if n > 0 {
      PrefixRead(lines, n - 1);
      OneMore(lines, n - 1);
      var s, kind := Run(START, lines[..n - 1]).value, lines[n - 1].kind;
      if kind.Anchor? {
        TagsHold(lines, n - 1, kind.tag);
        CloseFacts(s);
        assert !RepeatedAt(lines, n - 1);
      }
    }
  }

  lemma RepeatStops(lines: seq<Line>, k: nat)
    requires RepeatedAt(lines, k)
    ensures Run(START, lines).None?
  {
    if Run(START, lines[..k]).Some? {
      TagsHold(lines, k, lines[k].kind.tag);
      CloseFacts(Run(START, lines[..k]).value);
      OneMore(lines, k);
      PrefixStops(lines, k + 1);
    } else {
      PrefixStops(lines, k);
    }
  }

  /** A text is refused if and only if some anchor's tag was recorded by the line that follows an
      earlier anchor of it. */
  lemma RefusedIff(lines: seq<Line>)
    ensures Parse(lines).None? <==> exists k: nat :: RepeatedAt(lines, k)
  {
    if k: nat :| RepeatedAt(lines, k) {
      RepeatStops(lines, k);
    } else {
      PrefixRead(lines, |lines|);
      assert lines[..|lines|] == lines;
    }
  }

  /** An anchor that the next anchor overwrites may be used again. */
  lemma OverwrittenAnchorAccepted(tag: string, anchor: string, heading: Line)
    requires heading.kind.Release?
    ensures Parse([Line(Anchor(tag), anchor), Line(Anchor(tag), anchor), heading]).Some?
  {
    var lines := [Line(Anchor(tag), anchor), Line(Anchor(tag), anchor), heading];
    assert forall k: nat :: !RepeatedAt(lines, k);
    RefusedIff(lines);
  }

  /** So may one that another heading drops. */
  lemma DroppedAnchorAccepted(tag: string, anchor: string, heading: Line)
    requires heading.kind.Release?
    ensures Parse([Line(Anchor(tag), anchor), Line(OtherHeading, "## Old"), Line(Anchor(tag), anchor), heading]).Some?
  {
    var lines := [Line(Anchor(tag), anchor), Line(OtherHeading, "## Old"), Line(Anchor(tag), anchor), heading];
    assert forall k: nat :: !RepeatedAt(lines, k);
    RefusedIff(lines);
  }

  // ------------------------------------------------------------ where an entry comes from

  /** The entry of `tag` after `n` lines: still open and reaching to `n`, or closed by a line before. */
  ghost predicate EntryAt(lines: seq<Line>, n: nat, s: State, tag: string, a: nat, h: nat, e: nat) {
    && tag in s.log.entries && e <= n <= |lines| && Spans(lines, tag, s.log.entries[tag], a, h, e)
    && if s.bodyTag == Some(tag) then e == n && s.body == Texts(lines[h + 1..e])
       else e < n && Closes(lines[e].kind) && s.log.entries[tag].body == Strip(Join(Texts(lines[h + 1..e])))
  }

  /** What closing, headings and announcements do to the entry of a tag. */
  lemma SeenEntry(s: State, kind: Kind, tag: string)
    requires Sane(s) && tag in s.log.entries && !kind.Anchor?
    ensures var seen := AfterUnreleased(AfterHeading(s, kind), kind);
      && tag in seen.log.entries && (s.bodyTag != Some(tag) ==> seen.bodyTag != Some(tag))
      && (s.bodyTag == Some(tag) && !Closes(kind) ==> seen.bodyTag == Some(tag) && seen.body == s.body)
      && (s.bodyTag == Some(tag) && Closes(kind) ==> seen.bodyTag != Some(tag))
      && seen.log.entries[tag] ==
         if s.bodyTag == Some(tag) && Closes(kind) then s.log.entries[tag].(body := Strip(Join(s.body))) else s.log.entries[tag]
  {
  }

  /** What one line does to the entry of a tag. */
  lemma StepEntry(s: State, line: Line, tag: string)
    requires Sane(s) && Step(s, line).Some? && tag in s.log.entries
    ensures var next := Step(s, line).value;
      && tag in next.log.entries
      && (s.bodyTag != Some(tag) ==> next.bodyTag != Some(tag))
      && (s.bodyTag == Some(tag) && !Closes(line.kind) ==> next.bodyTag == Some(tag) && next.body == s.body + [line.text])
      && (s.bodyTag == Some(tag) && Closes(line.kind) ==> next.bodyTag != Some(tag))
      && next.log.entries[tag] ==
         if s.bodyTag == Some(tag) && Closes(line.kind) then s.log.entries[tag].(body := Strip(Join(s.body))) else s.log.entries[tag]
  {
    if !line.kind.Anchor? {
      SeenEntry(s, line.kind, tag);
      HeadingFacts(s, line.kind);
    }
  }

  lemma StepOpens(s: State, line: Line, tag: string)
    requires Sane(s) && s.pending == Some(tag) && line.kind.Release?
    ensures var next := Step(s, line).value;
      && next.bodyTag == Some(tag) && next.body == [] && tag in next.log.entries
      && next.log.entries[tag] == Entry(line.kind.component, line.kind.version, line.kind.date, "")
  {
  }

  lemma TextsMore(lines: seq<Line>, h: nat, n: nat)
    requires h < n < |lines|
    ensures Texts(lines[h + 1..n + 1]) == Texts(lines[h + 1..n]) + [lines[n].text]
  {
    assert lines[h + 1..n + 1] == lines[h + 1..n] + [lines[n]];
    TextsAppend(lines[h + 1..n], [lines[n]]);
    assert Texts([lines[n]]) == [lines[n].text] + Texts([]);
  }

  /** An entry that was there stays where it is or grows by the line. */
  lemma EntryContinues(lines: seq<Line>, n: nat, s: State, tag: string, a: nat, h: nat, e: nat)
    requires n < |lines| && Sane(s) && Step(s, lines[n]).Some? && EntryAt(lines, n, s, tag, a, h, e)
    ensures var grown := if s.bodyTag == Some(tag) && !Closes(lines[n].kind) then n + 1 else e;
      EntryAt(lines, n + 1, Step(s, lines[n]).value, tag, a, h, grown)
  {
    StepEntry(s, lines[n], tag);
    TextsMore(lines, h, n);
  }

  lemma EntryOpens(lines: seq<Line>, n: nat, s: State, tag: string, a: nat)
    requires n < |lines| && Sane(s) && s.pending == Some(tag) && Waits(lines, a, n, tag) && lines[n].kind.Release?
    ensures EntryAt(lines, n + 1, Step(s, lines[n]).value, tag, a, n, n + 1)
  {
    StepOpens(s, lines[n], tag);
    assert lines[n + 1..n + 1] == [];
  }

  lemma {:induction false} EntryFound(lines: seq<Line>, n: nat, tag: string) returns (a: nat, h: nat, e: nat)
    requires n <= |lines| && Run(START, lines[..n]).Some? && tag in Run(START, lines[..n]).value.log.entries
    ensures EntryAt(lines, n, Run(START, lines[..n]).value, tag, a, h, e)
  {
    assert n > 0;
    OneMore(lines, n - 1);
    var s := Run(START, lines[..n - 1]).value;
    TagsHold(lines, n - 1, tag);
    StepTags(s, lines[n - 1], tag);
    if tag in s.log.entries {
      a, h, e := EntryFound(lines, n - 1, tag);
      EntryContinues(lines, n - 1, s, tag, a, h, e);
      if s.bodyTag == Some(tag) && !Closes(lines[n - 1].kind) { e := n; }
    } else {
      a :| Waits(lines, a, n - 1, tag);
      h, e := n - 1, n;
      EntryOpens(lines, n - 1, s, tag, a);
    }
  }

  /** In every text that parses, an entry stands under its anchor and heading, and its body is the
      lines from there to the next anchor, heading or rule. */
  lemma EntryWritten(lines: seq<Line>, tag: string) returns (a: nat, h: nat, e: nat)
    requires Parse(lines).Some? && tag in Parse(lines).value.entries
    ensures Written(lines, tag, Parse(lines).value.entries[tag], a, h, e)
  {
    assert lines[..|lines|] == lines;
    TagsHold(lines, |lines|, tag);
    CloseFacts(Run(START, lines).value);
    a, h, e := EntryFound(lines, |lines|, tag);
  }

  lemma SameAnchor(lines: seq<Line>, a: nat, b: nat, h: nat, tag: string, other: string)
    requires Waits(lines, a, h, tag) && Waits(lines, b, h, other)
    ensures a == b && tag == other
  {
  }

  /** No line is in two releases. */
  lemma EntriesDisjoint(lines: seq<Line>, tag: string, entry: Entry, a: nat, h: nat, e: nat,
                        other: string, second: Entry, b: nat, g: nat, f: nat)
    requires Spans(lines, tag, entry, a, h, e) && Spans(lines, other, second, b, g, f) && tag != other
    ensures e <= g || f <= h
  {
    if h == g { SameAnchor(lines, a, b, h, tag, other); }
  }

  /** In a text that parses, a tag has one release at most. */
  lemma OneRelease(lines: seq<Line>, tag: string, entry: Entry, a: nat, h: nat, e: nat, second: Entry, b: nat, g: nat, f: nat)
    requires Spans(lines, tag, entry, a, h, e) && Spans(lines, tag, second, b, g, f) && h < g
    ensures RepeatedAt(lines, b)
  {
    assert b > h by { assert !lines[h].kind.Blank? && !lines[b].kind.Blank?; }
    assert Recorded(lines, a, h, tag);
  }

  lemma SameRelease(lines: seq<Line>, tag: string, entry: Entry, a: nat, h: nat, e: nat, second: Entry, b: nat, g: nat, f: nat)
    requires Parse(lines).Some?
    requires Written(lines, tag, entry, a, h, e) && Written(lines, tag, second, b, g, f)
    ensures entry == second
  {
    RefusedIff(lines);
    if h < g {
      OneRelease(lines, tag, entry, a, h, e, second, b, g, f);
    } else if g < h {
      OneRelease(lines, tag, second, b, g, f, entry, a, h, e);
    } else {
      assert e == f;
    }
  }

  /** A release heading that its anchor waits for is an entry. */
  lemma {:induction false} ReleaseIsEntry(lines: seq<Line>, n: nat, tag: string, a: nat, h: nat)
    requires h < n <= |lines| && Waits(lines, a, h, tag) && lines[h].kind.Release? && Run(START, lines[..n]).Some?
    ensures tag in Run(START, lines[..n]).value.log.entries
  {
    OneMore(lines, n - 1);
    TagsHold(lines, n - 1, tag);
    StepTags(Run(START, lines[..n - 1]).value, lines[n - 1], tag);
    if h < n - 1 { ReleaseIsEntry(lines, n - 1, tag, a, h); }
  }

  /** In every text that parses, an entry is there if and only if the lines write it: under its
      anchor and heading, with the lines up to the next anchor, heading or rule as its body. */
  lemma EntryIff(lines: seq<Line>, tag: string, entry: Entry)
    requires Parse(lines).Some?
    ensures tag in Parse(lines).value.entries && Parse(lines).value.entries[tag] == entry <==>
            exists a: nat, h: nat, e: nat :: Written(lines, tag, entry, a, h, e)
  {
    if a: nat, h: nat, e: nat :| Written(lines, tag, entry, a, h, e) {
      assert lines[..|lines|] == lines;
      ReleaseIsEntry(lines, |lines|, tag, a, h);
      TagsHold(lines, |lines|, tag);
      CloseFacts(Run(START, lines).value);
      var b, g, f := EntryWritten(lines, tag);
      SameRelease(lines, tag, entry, a, h, e, Parse(lines).value.entries[tag], b, g, f);
    } else if tag in Parse(lines).value.entries {
      var b, g, f := EntryWritten(lines, tag);
    }
  }

  // ---------------------------------------------------------- unpublished and unreleased

  ghost predicate NotedBefore(lines: seq<Line>, n: nat, tag: string) {
    exists i: nat, j: nat :: j < n && Recorded(lines, i, j, tag) && !lines[j].kind.Release?
  }

  lemma {:induction false} NotedHold(lines: seq<Line>, n: nat, tag: string)
    requires n <= |lines| && Run(START, lines[..n]).Some?
    ensures tag in Run(START, lines[..n]).value.log.unpublished <==> NotedBefore(lines, n, tag)
  {
    if n > 0 {
      OneMore(lines, n - 1);
      NotedHold(lines, n - 1, tag);
      TagsHold(lines, n - 1, tag);
      StepTags(Run(START, lines[..n - 1]).value, lines[n - 1], tag);
      if SomeWaits(lines, n - 1, tag) && Records(lines[n - 1].kind) {
        var i: nat :| Waits(lines, i, n - 1, tag);
        assert Recorded(lines, i, n - 1, tag);
      }
    }
  }

  /** In every text that parses, the unpublished tags are those whose anchor is followed, after
      blank lines, by a line that is no anchor and no heading. */
  lemma UnpublishedIff(lines: seq<Line>, tag: string)
    requires Parse(lines).Some?
    ensures tag in Parse(lines).value.unpublished <==> NotedBefore(lines, |lines|, tag)
  {
    assert lines[..|lines|] == lines;
    NotedHold(lines, |lines|, tag);
  }

  lemma StepUnreleased(s: State, line: Line)
    requires Step(s, line).Some?
    ensures var next := Step(s, line).value;
      && next.inUnreleased == (if Heading(line.kind) then line.kind.UnreleasedHeading? else s.inUnreleased)
      && next.log.unreleased ==
         if s.inUnreleased && line.kind.SubHeading? then s.log.unreleased[line.kind.component := line.kind.version]
         else s.log.unreleased
  {
  }

  lemma InUnreleasedStep(lines: seq<Line>, n: nat)
    requires n < |lines|
    ensures InUnreleased(lines, n + 1) <==>
            if Heading(lines[n].kind) then lines[n].kind.UnreleasedHeading? else InUnreleased(lines, n)
  {
    if lines[n].kind.UnreleasedHeading? {
      assert UnreleasedSince(lines, n, n + 1);
    } else if !Heading(lines[n].kind) && InUnreleased(lines, n) {
      var u: nat :| UnreleasedSince(lines, u, n);
      assert UnreleasedSince(lines, u, n + 1);
    }
    if InUnreleased(lines, n + 1) {
      var u: nat :| UnreleasedSince(lines, u, n + 1);
      assert u < n ==> UnreleasedSince(lines, u, n);
    }
  }

  /** Line `k` is the last of the first `n` to announce a version of the component. */
  ghost predicate LastAnnounced(lines: seq<Line>, n: nat, k: nat, component: Component) {
    k < n && Announces(lines, k, component) && forall j: nat | k < j < n :: !Announces(lines, j, component)
  }

  ghost predicate UnreleasedAt(lines: seq<Line>, n: nat, s: State, component: Component, version: string) {
    && (s.inUnreleased <==> InUnreleased(lines, n))
    && (component in s.log.unreleased && s.log.unreleased[component] == version <==>
          exists k: nat :: LastAnnounced(lines, n, k, component) && lines[k].kind.version == version)
  }

  lemma LastAnnouncedStep(lines: seq<Line>, n: nat, k: nat, component: Component)
    requires n < |lines|
    ensures LastAnnounced(lines, n + 1, k, component) <==>
            if Announces(lines, n, component) then k == n else LastAnnounced(lines, n, k, component)
  {
  }

  lemma {:induction false} UnreleasedHold(lines: seq<Line>, n: nat, component: Component, version: string)
    requires n <= |lines| && Run(START, lines[..n]).Some?
    ensures UnreleasedAt(lines, n, Run(START, lines[..n]).value, component, version)
  {
    if n > 0 {
      OneMore(lines, n - 1);
      UnreleasedHold(lines, n - 1, component, version);
      UnreleasedNext(lines, n - 1, Run(START, lines[..n - 1]).value, component, version);
    }
  }

  lemma UnreleasedNext(lines: seq<Line>, n: nat, s: State, component: Component, version: string)
    requires n < |lines| && Step(s, lines[n]).Some? && UnreleasedAt(lines, n, s, component, version)
    ensures UnreleasedAt(lines, n + 1, Step(s, lines[n]).value, component, version)
  {
    StepUnreleased(s, lines[n]);
    InUnreleasedStep(lines, n);
    forall k: nat { LastAnnouncedStep(lines, n, k, component); }
  }

  /** In every text that parses, a component's unreleased version is the one that the last of its
      sub-headings inside an unreleased part announces. */
  lemma UnreleasedIff(lines: seq<Line>, component: Component, version: string)
    requires Parse(lines).Some?
    ensures component in Parse(lines).value.unreleased && Parse(lines).value.unreleased[component] == version <==>
            exists k: nat :: LastAnnounced(lines, |lines|, k, component) && lines[k].kind.version == version
  {
    assert lines[..|lines|] == lines;
    UnreleasedHold(lines, |lines|, component, version);
  }
}
