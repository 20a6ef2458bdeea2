/** Judging a licence file from the matches found in it (companion/scripts/licenses.py): the text
    outside every match is what restrictive terms are searched in. */
module LicenseCoverage {

  /** A match covers [start, end). */
  datatype Match = Match(id: string, start: nat, end: nat)

  function Max(a: nat, b: nat): nat { if a < b then b else a }

  function Min(a: nat, b: nat): nat { if a < b then a else b }

  /** Python's `text[a:b]`. */
  function Slice(text: string, a: nat, b: nat): string {
    if Min(a, |text|) <= Min(b, |text|) then text[Min(a, |text|)..Min(b, |text|)] else []
  }

  // ------------------------------------------------------------------ sorting

  ghost predicate SortedByStart(ms: seq<Match>) {
    forall i, j | 0 <= i < j < |ms| :: ms[i].start <= ms[j].start
  }

  function Insert(m: Match, ms: seq<Match>): (r: seq<Match>)
    ensures forall x :: x in r <==> x == m || x in ms
  {
    if ms == [] || m.start < ms[0].start then [m] + ms else [ms[0]] + Insert(m, ms[1..])
  }

  /** `sorted(matches, key=start)`: equal starts keep their order. */
  function SortByStart(ms: seq<Match>): (r: seq<Match>)
    ensures forall x :: x in r <==> x in ms
  {
    if ms == [] then [] else Insert(ms[|ms| - 1], SortByStart(ms[..|ms| - 1]))
  }

  lemma {:induction false} InsertSorted(m: Match, ms: seq<Match>)
    requires SortedByStart(ms)
    ensures SortedByStart(Insert(m, ms))
  {
    if ms != [] && m.start >= ms[0].start {
      InsertSorted(m, ms[1..]);
      var rest := Insert(m, ms[1..]);
      forall j | 0 <= j < |rest| ensures ms[0].start <= rest[j].start { assert rest[j] in rest; }
    }
  }

  lemma {:induction false} SortByStartSorted(ms: seq<Match>)
    ensures SortedByStart(SortByStart(ms))
  {
    if ms != [] {
      SortByStartSorted(ms[..|ms| - 1]);
      InsertSorted(ms[|ms| - 1], SortByStart(ms[..|ms| - 1]));
    }
  }

  // ----------------------------------------------------------------- the sweep

  /** The slices between matches, from `position` on. */
  function Sweep(text: string, ms: seq<Match>, position: nat): string
    decreases |ms|
  {
    if ms == [] then Slice(text, position, |text|)
    else Slice(text, position, ms[0].start) + Sweep(text, ms[1..], Max(position, ms[0].end))
  }

  predicate Covered(ms: seq<Match>, i: nat) {
    exists m | m in ms :: m.start <= i < m.end
  }

  /** The characters of [lo, hi) that no match covers, in order. */
  function Outside(text: string, ms: seq<Match>, lo: nat, hi: nat): string
    requires hi <= |text|
    decreases hi
  {
    if hi <= lo then []
    else Outside(text, ms, lo, hi - 1) + if Covered(ms, hi - 1) then [] else [text[hi - 1]]
  }

  lemma {:induction false} OutsideSplit(text: string, ms: seq<Match>, lo: nat, mid: nat, hi: nat)
    requires lo <= mid <= hi <= |text|
    ensures Outside(text, ms, lo, hi) == Outside(text, ms, lo, mid) + Outside(text, ms, mid, hi)
    decreases hi
  {
    if mid < hi { OutsideSplit(text, ms, lo, mid, hi - 1); }
  }

  lemma {:induction false} OutsideAll(text: string, ms: seq<Match>, lo: nat, hi: nat)
    requires lo <= hi <= |text| && forall i | lo <= i < hi :: !Covered(ms, i)
    ensures Outside(text, ms, lo, hi) == text[lo..hi]
    decreases hi
  {
    if lo < hi { OutsideAll(text, ms, lo, hi - 1); }
  }

  lemma {:induction false} OutsideNone(text: string, ms: seq<Match>, lo: nat, hi: nat)
    requires hi <= |text| && forall i | lo <= i < hi :: Covered(ms, i)
    ensures Outside(text, ms, lo, hi) == []
    decreases hi
  {
    if lo < hi { OutsideNone(text, ms, lo, hi - 1); }
  }

  lemma {:induction false} OutsideAgrees(text: string, a: seq<Match>, b: seq<Match>, lo: nat, hi: nat)
    requires hi <= |text| && forall i | lo <= i < hi :: Covered(a, i) <==> Covered(b, i)
    ensures Outside(text, a, lo, hi) == Outside(text, b, lo, hi)
    decreases hi
  {
    if lo < hi { OutsideAgrees(text, a, b, lo, hi - 1); }
  }

  lemma CoveredHead(ms: seq<Match>, i: nat)
    requires ms != []
    ensures Covered(ms, i) <==> ms[0].start <= i < ms[0].end || Covered(ms[1..], i)
  {
    assert ms == [ms[0]] + ms[1..];
  }

  lemma NothingBefore(ms: seq<Match>, i: nat)
    requires ms != [] && SortedByStart(ms) && i < ms[0].start
    ensures !Covered(ms, i)
  {
    forall m | m in ms ensures i < m.start {
      var j :| 0 <= j < |ms| && ms[j] == m;
      assert j == 0 || ms[0].start <= ms[j].start;
    }
  }

  /** With the first match taken out: nothing before it is covered, all of it is, and what follows
      is left to the others. */
  lemma OutsideHead(text: string, ms: seq<Match>, lo: nat, mid: nat, after: nat)
    requires ms != [] && SortedByStart(ms) && lo <= mid <= after <= |text|
    requires mid == lo || mid <= ms[0].start
    requires mid == after || ms[0].start <= mid <= after <= ms[0].end
    requires after == |text| || ms[0].end <= after
    ensures Outside(text, ms, lo, |text|) == text[lo..mid] + Outside(text, ms[1..], after, |text|)
  {
    forall i | lo <= i < mid ensures !Covered(ms, i) { NothingBefore(ms, i); }
    forall i | mid <= i < after ensures Covered(ms, i) { CoveredHead(ms, i); }
    OutsideAll(text, ms, lo, mid);
    OutsideNone(text, ms, mid, after);
    forall i | after <= i < |text| ensures Covered(ms, i) <==> Covered(ms[1..], i) { CoveredHead(ms, i); }
    OutsideAgrees(text, ms, ms[1..], after, |text|);
    OutsideSplit(text, ms, mid, after, |text|);
    OutsideSplit(text, ms, lo, mid, |text|);
  }

  /** Sweeping sorted intervals, however they overlap or nest, yields the characters outside all of them. */
  lemma {:induction false} SweepIsOutside(text: string, ms: seq<Match>, position: nat)
    requires SortedByStart(ms) && forall m | m in ms :: m.start <= m.end
    ensures Sweep(text, ms, position) == Outside(text, ms, Min(position, |text|), |text|)
    decreases |ms|
  {
    var lo, n := Min(position, |text|), |text|;
    if ms == [] {
      OutsideAll(text, ms, lo, n);
    } else {
      var m, next := ms[0], Max(position, ms[0].end);
      var mid, after := Max(lo, Min(m.start, n)), Min(next, n);
      assert m in ms;
      assert Slice(text, position, m.start) == text[lo..mid];
      SweepIsOutside(text, ms[1..], next);
      OutsideHead(text, ms, lo, mid, after);
    }
  }

  /** The text that is searched is exactly the characters outside every match, whatever the order of the matches. */
  lemma SearchedText(text: string, ms: seq<Match>)
    requires forall m | m in ms :: m.start <= m.end
    ensures Sweep(text, SortByStart(ms), 0) == Outside(text, ms, 0, |text|)
  {
    SortByStartSorted(ms);
    SweepIsOutside(text, SortByStart(ms), 0);
    OutsideAgrees(text, SortByStart(ms), ms, 0, |text|);
  }

  // ------------------------------------------------------------------ the verdict

  datatype Problem = Disallowed(ids: seq<string>) | Restrictive | LowCoverage | Fine

  function Ids(ms: seq<Match>): seq<string> {
    if ms == [] then []
    else
      var earlier := Ids(ms[..|ms| - 1]);
      var id := ms[|ms| - 1].id;
      if id in earlier then earlier else earlier + [id]
  }

  lemma {:induction false} IdsComplete(ms: seq<Match>)
    ensures forall m | m in ms :: m.id in Ids(ms)
    ensures forall id | id in Ids(ms) :: exists m | m in ms :: m.id == id
  {
    if ms != [] {
      var n := |ms| - 1;
      IdsComplete(ms[..n]);
      assert ms == ms[..n] + [ms[n]];
    }
  }

  function NotAllowed(ids: seq<string>, allowed: set<string>): seq<string> {
    if ids == [] then []
    else NotAllowed(ids[..|ids| - 1], allowed) + if ids[|ids| - 1] in allowed then [] else [ids[|ids| - 1]]
  }

  lemma {:induction false} NotAllowedEmpty(ids: seq<string>, allowed: set<string>)
    ensures NotAllowed(ids, allowed) == [] <==> forall id | id in ids :: id in allowed
  {
    if ids != [] {
      var n := |ids| - 1;
      NotAllowedEmpty(ids[..n], allowed);
      assert ids == ids[..n] + [ids[n]];
    }
  }

  const THRESHOLD: real := 80.0

  /** The loop that gathers the uncovered text. */
  method Uncovered(text: string, matches: seq<Match>) returns (uncovered: string)
    requires forall m | m in matches :: m.start <= m.end
    ensures uncovered == Outside(text, matches, 0, |text|)
  {
    var sorted := SortByStart(matches);
    uncovered := "";
    var position, i := 0, 0;
    while i < |sorted|
      invariant 0 <= i <= |sorted|
      invariant uncovered + Sweep(text, sorted[i..], position) == Sweep(text, sorted, 0)
    {
      ghost var before := uncovered;
      uncovered := uncovered + Slice(text, position, sorted[i].start);
      ghost var rest := Sweep(text, sorted[i + 1..], Max(position, sorted[i].end));
      assert sorted[i..][1..] == sorted[i + 1..];
      assert before + (Slice(text, position, sorted[i].start) + rest) == uncovered + rest;
      position := Max(position, sorted[i].end);
      i := i + 1;
    }
    uncovered := uncovered + Slice(text, position, |text|);
    SearchedText(text, matches);
  }

  lemma AllAllowedIff(ms: seq<Match>, allowed: set<string>)
    ensures NotAllowed(Ids(ms), allowed) == [] <==> forall m | m in ms :: m.id in allowed
    ensures Ids(ms) == [] <==> ms == []
  {
    IdsComplete(ms);
    NotAllowedEmpty(Ids(ms), allowed);
    if ms != [] { assert ms[0] in ms; }
  }

  /** Every id, once, in the order of first appearance. */
  ghost predicate FirstSeen(ms: seq<Match>, ids: seq<string>) {
    && (forall m | m in ms :: m.id in ids)
    && (forall i | 0 <= i < |ids| :: AppearsAt(ms, ids[i]) >= 0)
    && (forall i, j | 0 <= i < j < |ids| :: AppearsAt(ms, ids[i]) < AppearsAt(ms, ids[j]))
  }

  /** The first match with this id; -1 when there is none. */
  function AppearsAt(ms: seq<Match>, id: string): (k: int)
    ensures k == -1 <==> forall i | 0 <= i < |ms| :: ms[i].id != id
    ensures k != -1 ==> 0 <= k < |ms| && ms[k].id == id && forall i | 0 <= i < k :: ms[i].id != id
  {
    if ms == [] then -1
    else
      var n := |ms| - 1;
      var earlier := AppearsAt(ms[..n], id);
      if earlier >= 0 then earlier else if ms[n].id == id then n else -1
  }

  lemma {:induction false} IdsFirstSeen(ms: seq<Match>)
    ensures FirstSeen(ms, Ids(ms))
  {
    IdsComplete(ms);
    if ms != [] {
      var n := |ms| - 1;
      IdsFirstSeen(ms[..n]);
      IdsComplete(ms[..n]);
      var earlier := Ids(ms[..n]);
      forall i | 0 <= i < |earlier| ensures AppearsAt(ms, earlier[i]) == AppearsAt(ms[..n], earlier[i]) >= 0 {
        assert earlier[i] in earlier;
      }
      if ms[n].id !in earlier { NewId(ms); }
    }
  }

  lemma NewId(ms: seq<Match>)
    requires ms != [] && ms[|ms| - 1].id !in Ids(ms[..|ms| - 1])
    ensures AppearsAt(ms, ms[|ms| - 1].id) == |ms| - 1
  {
    var n := |ms| - 1;
    IdsComplete(ms[..n]);
    forall i | 0 <= i < n ensures ms[i].id != ms[n].id { assert ms[..n][i] in ms[..n]; }
  }

  lemma {:induction false} NotAllowedMeans(ids: seq<string>, allowed: set<string>, id: string)
    ensures id in NotAllowed(ids, allowed) <==> id in ids && id !in allowed
  {
    if ids != [] {
      var n := |ids| - 1;
      NotAllowedMeans(ids[..n], allowed, id);
      assert ids == ids[..n] + [ids[n]];
    }
  }

  /** What a failing file is told: first the ids outside the allowlist, then restrictive terms outside
      the matches, then too little coverage.  `denied` is the search for restrictive terms. */
  method Judge(text: string, matches: seq<Match>, percent: real, allowed: set<string>, denied: string -> bool)
      returns (ids: seq<string>, problem: Problem)
    requires forall m | m in matches :: m.start <= m.end
    ensures FirstSeen(matches, ids)
    ensures problem.Disallowed? <==> exists m | m in matches :: m.id !in allowed
    ensures problem.Disallowed? ==> forall id :: id in problem.ids <==> id in ids && id !in allowed
    ensures problem.Restrictive? <==> (forall m | m in matches :: m.id in allowed) && denied(Outside(text, matches, 0, |text|))
    ensures problem.LowCoverage? <==>
      && (forall m | m in matches :: m.id in allowed) && !denied(Outside(text, matches, 0, |text|))
      && (matches == [] || percent < 80.0)
    ensures problem.Fine? <==>
      && matches != [] && (forall m | m in matches :: m.id in allowed)
      && !denied(Outside(text, matches, 0, |text|)) && percent >= 80.0
  {
    ids := Ids(matches);
    IdsFirstSeen(matches);
    var uncovered := Uncovered(text, matches);
    AllAllowedIff(matches, allowed);
    var disallowed := NotAllowed(ids, allowed);
    if disallowed != [] {
      forall id ensures id in disallowed <==> id in ids && id !in allowed { NotAllowedMeans(ids, allowed, id); }
      return ids, Disallowed(disallowed);
    }
    if denied(uncovered) { return ids, Restrictive; }
    if ids == [] || percent < THRESHOLD { return ids, LowCoverage; }
    return ids, Fine;
  }
}
