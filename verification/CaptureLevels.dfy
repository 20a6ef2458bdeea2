/** Rewriting a session's capture levels for the previous release
    (`_without_rich` in backend/alembic/versions/119_session_contents.py). */
module CaptureLevels {

  function Rename(level: string): string { if level == "rich" then "full" else level }

  function Renamed(levels: seq<string>): (s: seq<string>)
    ensures |s| == |levels| && forall i | 0 <= i < |levels| :: s[i] == if levels[i] == "rich" then "full" else levels[i]
  {
    seq(|levels|, i requires 0 <= i < |levels| => Rename(levels[i]))
  }

  /** Each level's last position among the first `n`. */
  function LastSeen(s: seq<string>, n: nat): map<string, nat>
    requires n <= |s|
  {
    if n == 0 then map[] else LastSeen(s, n - 1)[s[n - 1] := n - 1]
  }

  /** The levels whose last position is below `n`, by that position. */
  function ByPosition(s: seq<string>, last: map<string, nat>, n: nat): seq<string>
    requires n <= |s|
  {
    if n == 0 then []
    else if s[n - 1] in last && last[s[n - 1]] == n - 1 then ByPosition(s, last, n - 1) + [s[n - 1]]
    else ByPosition(s, last, n - 1)
  }

  function OnceEach(s: seq<string>): seq<string> { ByPosition(s, LastSeen(s, |s|), |s|) }

  function WithoutRich(levels: seq<string>): seq<string> { OnceEach(Renamed(levels)) }

  // ---------------------------------------------------------------- what it means

  /** `p` is the last position of `level` among the first `n`. */
  ghost predicate IsLast(s: seq<string>, n: nat, level: string, p: nat) {
    p < n <= |s| && s[p] == level && forall q | p < q < n :: s[q] != level
  }

  lemma {:induction false} LastSeenFacts(s: seq<string>, n: nat)
    requires n <= |s|
    ensures forall level | level in LastSeen(s, n) :: IsLast(s, n, level, LastSeen(s, n)[level])
    ensures forall q | 0 <= q < n :: s[q] in LastSeen(s, n)
  {
    if n > 0 { LastSeenFacts(s, n - 1); }
  }

  /** `r` lists the levels of `s`, each once, in order of last occurrence. */
  ghost predicate LastOccurrences(s: seq<string>, r: seq<string>) {
    && (forall i | 0 <= i < |r| :: r[i] in s)
    && (forall level | level in s :: level in r)
    && (forall i, j, p: nat, q: nat | 0 <= i < j < |r| && IsLast(s, |s|, r[i], p) && IsLast(s, |s|, r[j], q) :: p < q)
  }

  /** The same by the positions the script records. */
  ghost predicate ByLastSeen(s: seq<string>, r: seq<string>) {
    && (forall i | 0 <= i < |r| :: r[i] in LastSeen(s, |s|))
    && (forall level | level in LastSeen(s, |s|) :: level in r)
    && (forall i, j | 0 <= i < j < |r| :: LastSeen(s, |s|)[r[i]] < LastSeen(s, |s|)[r[j]])
  }

  lemma SeenIffThere(s: seq<string>, level: string)
    ensures level in LastSeen(s, |s|) <==> level in s
    ensures forall p: nat | IsLast(s, |s|, level, p) :: level in s && p == LastSeen(s, |s|)[level]
  {
    LastSeenFacts(s, |s|);
  }

  lemma SameOrder(s: seq<string>, r: seq<string>)
    ensures LastOccurrences(s, r) <==> ByLastSeen(s, r)
  {
    LastSeenFacts(s, |s|);
    assert forall level :: level in LastSeen(s, |s|) <==> level in s by {
      forall level ensures level in LastSeen(s, |s|) <==> level in s { SeenIffThere(s, level); }
    }
    if LastOccurrences(s, r) {
      forall i, j | 0 <= i < j < |r| ensures LastSeen(s, |s|)[r[i]] < LastSeen(s, |s|)[r[j]] {
        assert IsLast(s, |s|, r[i], LastSeen(s, |s|)[r[i]]) && IsLast(s, |s|, r[j], LastSeen(s, |s|)[r[j]]);
      }
    }
    if ByLastSeen(s, r) {
      forall i, j, p: nat, q: nat | 0 <= i < j < |r| && IsLast(s, |s|, r[i], p) && IsLast(s, |s|, r[j], q) ensures p < q {
        SeenIffThere(s, r[i]);
        SeenIffThere(s, r[j]);
      }
    }
  }

  /** `r` is what remains of the first `n` positions, by last position. */
  ghost predicate Lists(s: seq<string>, last: map<string, nat>, n: nat, r: seq<string>)
    requires n <= |s|
  {
    && (forall i | 0 <= i < |r| :: r[i] in last && last[r[i]] < n)
    && (forall i, j | 0 <= i < j < |r| :: last[r[i]] < last[r[j]])
    && (forall p | 0 <= p < n && s[p] in last && last[s[p]] == p :: s[p] in r)
  }

  lemma {:induction false} ByPositionFacts(s: seq<string>, last: map<string, nat>, n: nat)
    requires n <= |s|
    ensures Lists(s, last, n, ByPosition(s, last, n))
  {
    if n > 0 { ByPositionFacts(s, last, n - 1); }
  }

  /** Sorting by last position gives the last occurrences in order. */
  lemma OnceEachMeans(s: seq<string>)
    ensures LastOccurrences(s, OnceEach(s))
  {
    var last := LastSeen(s, |s|);
    LastSeenFacts(s, |s|);
    ByPositionFacts(s, last, |s|);
    forall level | level in last ensures level in OnceEach(s) {
      assert s[last[level]] == level;
    }
    SameOrder(s, OnceEach(s));
  }

  lemma RenamedHas(levels: seq<string>, level: string)
    ensures level in Renamed(levels) <==> (level != "rich" && level in levels) || (level == "full" && "rich" in levels)
  {
    var s := Renamed(levels);
    if level in levels {
      var i :| 0 <= i < |levels| && levels[i] == level;
      assert level != "rich" ==> s[i] == level;
    }
    if "rich" in levels {
      var i :| 0 <= i < |levels| && levels[i] == "rich";
      assert s[i] == "full";
    }
  }

  /** The rewrite, declaratively: `rich` read as `full`, each level once, in order of last occurrence. */
  lemma WithoutRichMeans(levels: seq<string>)
    ensures LastOccurrences(Renamed(levels), WithoutRich(levels))
    ensures forall level :: level in WithoutRich(levels) <==>
      (level != "rich" && level in levels) || (level == "full" && "rich" in levels)
  {
    OnceEachMeans(Renamed(levels));
    forall level ensures level in WithoutRich(levels) <==>
        (level != "rich" && level in levels) || (level == "full" && "rich" in levels)
    {
      RenamedHas(levels, level);
    }
  }

  lemma {:induction false} SamePlace(s: seq<string>, a: seq<string>, b: seq<string>, k: nat)
    requires ByLastSeen(s, a) && ByLastSeen(s, b) && k < |a| && k < |b|
    ensures a[k] == b[k]
  {
    forall i | 0 <= i < k ensures a[i] == b[i] { SamePlace(s, a, b, i); }
    var i :| 0 <= i < |b| && b[i] == a[k];
    var j :| 0 <= j < |a| && a[j] == b[k];
  }

  lemma NotLonger(s: seq<string>, a: seq<string>, b: seq<string>)
    requires ByLastSeen(s, a) && ByLastSeen(s, b)
    ensures |b| <= |a|
  {
    if |a| < |b| {
      var i :| 0 <= i < |a| && a[i] == b[|a|];
      SamePlace(s, a, b, i);
      assert false;
    }
  }

  /** That description leaves nothing open: only one list fits it. */
  lemma OnlyOneList(s: seq<string>, a: seq<string>, b: seq<string>)
    requires LastOccurrences(s, a) && LastOccurrences(s, b)
    ensures a == b
  {
    SameOrder(s, a);
    SameOrder(s, b);
    NotLonger(s, a, b);
    NotLonger(s, b, a);
    forall k | 0 <= k < |a| ensures a[k] == b[k] { SamePlace(s, a, b, k); }
  }

  /** The last entry, which readers take for the latest level, is kept. */
  lemma {:induction false} LatestLevelKept(levels: seq<string>)
    requires levels != []
    ensures var r := WithoutRich(levels);
      r != [] && r[|r| - 1] == if levels[|levels| - 1] == "rich" then "full" else levels[|levels| - 1]
  {
    var s := Renamed(levels);
    var last := LastSeen(s, |s|);
    OnceEachMeans(s);
    SameOrder(s, OnceEach(s));
    LastSeenFacts(s, |s|);
    var r := WithoutRich(levels);
    assert last[s[|s| - 1]] == |s| - 1;
    assert s[|s| - 1] in r;
    var i :| 0 <= i < |r| && r[i] == s[|s| - 1];
  }

  lemma {:induction false} DistinctStays(r: seq<string>, last: map<string, nat>, n: nat)
    requires n <= |r|
    requires forall p | 0 <= p < |r| :: r[p] in last && last[r[p]] == p
    ensures ByPosition(r, last, n) == r[..n]
  {
    if n > 0 {
      DistinctStays(r, last, n - 1);
      assert r[..n] == r[..n - 1] + [r[n - 1]];
    }
  }

  /** Applying it again changes nothing. */
  lemma WithoutRichTwice(levels: seq<string>)
    ensures WithoutRich(WithoutRich(levels)) == WithoutRich(levels)
  {
    var r := WithoutRich(levels);
    WithoutRichMeans(levels);
    SameOrder(Renamed(levels), r);
    assert Renamed(r) == r by {
      forall i | 0 <= i < |r| ensures Renamed(r)[i] == r[i] { assert r[i] in r; }
    }
    LastSeenFacts(r, |r|);
    DistinctStays(r, LastSeen(r, |r|), |r|);
    assert r[..|r|] == r;
  }
}
