/** Finite maps, sets and sequences shared by the models. */
module Containers {

  ghost predicate Submap<K, V>(a: map<K, V>, b: map<K, V>) {
    a.Keys <= b.Keys && forall k | k in a :: a[k] == b[k]
  }

  function Restrict<K, V>(m: map<K, V>, keys: set<K>): map<K, V> {
    map k | k in m && k in keys :: m[k]
  }

  ghost predicate AgreeAt<K, V>(a: map<K, V>, b: map<K, V>, k: K) {
    (k in a <==> k in b) && (k in a ==> a[k] == b[k])
  }

  lemma SameMap<K(!new), V>(a: map<K, V>, b: map<K, V>)
    requires forall k :: AgreeAt(a, b, k)
    ensures a == b
  {
    assert forall k :: k in a <==> k in b by {
      forall k ensures k in a <==> k in b { assert AgreeAt(a, b, k); }
    }
    forall k | k in a ensures a[k] == b[k] { assert AgreeAt(a, b, k); }
  }

  ghost predicate Distinct<T>(s: seq<T>) {
    forall i, j | 0 <= i < j < |s| :: s[i] != s[j]
  }

  lemma SubsetSize<T>(a: set<T>, b: set<T>)
    requires a <= b
    ensures |a| <= |b|
  {
    assert b == a + (b - a);
  }

  ghost function Element<T>(s: set<T>): (x: T)
    requires s != {}
    ensures x in s
  {
    var x :| x in s; x
  }

  ghost predicate IsMax(values: set<real>, top: real) {
    top in values && forall v | v in values :: v <= top
  }

  lemma {:induction false} MaxExists(values: set<real>)
    requires values != {}
    ensures exists top :: IsMax(values, top)
  {
    var some := Element(values);
    var rest := values - {some};
    assert forall v | v in values :: v == some || v in rest;
    if rest == {} {
      assert IsMax(values, some);
    } else {
      MaxExists(rest);
      var other :| IsMax(rest, other);
      assert IsMax(values, if other > some then other else some);
    }
  }

  function Max(values: set<real>): (top: real)
    requires values != {}
    ensures IsMax(values, top)
  {
    MaxExists(values);
    var top :| top in values && forall v | v in values :: v <= top;
    top
  }

  /** Python's `sorted(values, reverse=True)` on a set of numbers. */
  function SortedDescending(values: set<real>): (s: seq<real>)
    ensures |s| == |values|
    ensures forall v :: v in s <==> v in values
    ensures forall i, j | 0 <= i < j < |s| :: s[i] > s[j]
  {
    if values == {} then []
    else
      var top := Max(values);
      var rest := SortedDescending(values - {top});
      TopFirst(values, top, rest);
      [top] + rest
  }

  lemma TopFirst(values: set<real>, top: real, rest: seq<real>)
    requires IsMax(values, top) && |rest| == |values - {top}|
    requires (forall v :: v in rest <==> v in values - {top}) && forall i, j | 0 <= i < j < |rest| :: rest[i] > rest[j]
    ensures |[top] + rest| == |values| && forall v :: v in [top] + rest <==> v in values
    ensures forall i, j | 0 <= i < j < |[top] + rest| :: ([top] + rest)[i] > ([top] + rest)[j]
  {
    forall i | 0 <= i < |rest| ensures top > rest[i] { assert rest[i] in rest; }
    assert forall v :: v in [top] + rest <==> v == top || v in rest;
  }

  function Negated(k: int): real { -(k as real) }

  function Upward(down: seq<real>): seq<int> {
    seq(|down|, i requires 0 <= i < |down| => (-down[i]).Floor)
  }

  /** A set of whole numbers in ascending order. */
  function Ascending(values: set<int>): (s: seq<int>)
    ensures forall k :: k in s <==> k in values
    ensures forall i, j | 0 <= i < j < |s| :: s[i] < s[j]
  {
    var down := SortedDescending(set k | k in values :: Negated(k));
    UpwardFacts(values, down);
    Upward(down)
  }

  lemma UpwardFacts(values: set<int>, down: seq<real>)
    requires forall v :: v in down <==> v in (set k | k in values :: Negated(k))
    requires forall i, j | 0 <= i < j < |down| :: down[i] > down[j]
    ensures forall k :: k in Upward(down) <==> k in values
    ensures forall i, j | 0 <= i < j < |Upward(down)| :: Upward(down)[i] < Upward(down)[j]
  {
    var up := Upward(down);
    forall i | 0 <= i < |up| ensures up[i] in values && Negated(up[i]) == down[i] {
      assert down[i] in down;
    }
    forall k | k in values ensures k in up {
      assert Negated(k) in down;
      var i :| 0 <= i < |down| && down[i] == Negated(k);
      assert up[i] == k;
    }
  }

  function SetOf(s: seq<real>): set<real> {
    set v | v in s
  }

  /** The `cap` largest values. */
  function NewestReleases(values: set<real>, cap: nat): set<real> {
    var s := SortedDescending(values);
    SetOf(s[..if cap < |s| then cap else |s|])
  }

  function Larger(values: set<real>, v: real): set<real> {
    set w | w in values && w > v
  }

  lemma LargerIsPrefix(s: seq<real>, i: nat)
    requires i < |s|
    requires forall i, j | 0 <= i < j < |s| :: s[i] > s[j]
    ensures Larger(SetOf(s), s[i]) == SetOf(s[..i])
  {
    forall w | w in s && w > s[i] ensures w in s[..i] {
      var j :| 0 <= j < |s| && s[j] == w;
      assert s[..i][j] == w;
    }
  }

  /** A value is among the newest exactly when fewer than `cap` values exceed it. */
  lemma NewestIffFewLarger(values: set<real>, cap: nat, v: real)
    ensures v in NewestReleases(values, cap) <==> v in values && |Larger(values, v)| < cap
  {
    var s := SortedDescending(values);
    var n := if cap < |s| then cap else |s|;
    assert values == SetOf(s);
    if v in values {
      var i :| 0 <= i < |s| && s[i] == v;
      PrefixSize(s, i);
      LargerIsPrefix(s, i);
      assert i < n ==> s[..n][i] == v;
    }
  }

  lemma {:induction false} PrefixSize(s: seq<real>, n: nat)
    requires n <= |s|
    requires forall i, j | 0 <= i < j < |s| :: s[i] > s[j]
    ensures |SetOf(s[..n])| == n
  {
    if n == 0 {
    } else {
      PrefixSize(s, n - 1);
      assert s[..n] == s[..n - 1] + [s[n - 1]];
      assert SetOf(s[..n]) == SetOf(s[..n - 1]) + {s[n - 1]};
    }
  }

  lemma NewestSize(values: set<real>, cap: nat)
    ensures NewestReleases(values, cap) <= values
    ensures |NewestReleases(values, cap)| == if |values| < cap then |values| else cap
    ensures |values| <= cap ==> NewestReleases(values, cap) == values
  {
    var s := SortedDescending(values);
    var n := if cap < |s| then cap else |s|;
    PrefixSize(s, n);
    if |values| <= cap { assert s[..n] == s; }
  }
}
