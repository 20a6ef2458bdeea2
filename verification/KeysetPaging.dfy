/** Keyset paging over a table that changes between pages
    (backend/scripts/rewrite_signed_media_links.py). */
module KeysetPaging {

  import Containers

  /** Primary keys are UUIDs: a bounded, totally ordered set. */
  const KEYS: nat := 0x1_0000_0000_0000_0000_0000_0000_0000_0000

  ghost predicate Increasing(keys: seq<int>) {
    forall i, j | 0 <= i < j < |keys| :: keys[i] < keys[j]
  }

  function Above<T>(rows: map<int, T>, last: int): set<int> {
    set k | k in rows.Keys && k > last
  }

  /** `ORDER BY pk`, `pk > last`, `LIMIT size`. */
  function Page<T>(rows: map<int, T>, last: int, size: nat): seq<int> {
    var keys := Containers.Ascending(Above(rows, last));
    if |keys| < size then keys else keys[..size]
  }

  lemma PrefixFacts(keys: seq<int>, n: nat)
    requires Increasing(keys) && n <= |keys|
    ensures Increasing(keys[..n]) && forall k | k in keys[..n] :: k in keys
    ensures forall k | k in keys && k !in keys[..n] :: forall j | j in keys[..n] :: j < k
  {
    forall k | k in keys && k !in keys[..n] ensures forall j | j in keys[..n] :: j < k {
      assert keys == keys[..n] + keys[n..];
      assert k in keys[n..];
    }
  }

  /** Keys left out of a page come after all of it, and then the page is full. */
  lemma PageFacts<T>(rows: map<int, T>, last: int, size: nat)
    ensures var page := Page(rows, last, size);
      && Increasing(page) && |page| <= size
      && (forall k | k in page :: k in rows && k > last)
      && (forall k | k in rows && k > last && k !in page :: |page| == size && forall j | j in page :: j < k)
  {
    var keys := Containers.Ascending(Above(rows, last));
    if |keys| >= size { PrefixFacts(keys, size); }
    assert forall k :: k in keys <==> k in Above(rows, last);
  }

  ghost predicate SeenIn<T(!new)>(tables: nat -> map<int, T>, key: int, row: T) {
    exists n: nat :: key in tables(n) && tables(n)[key] == row
  }

  ghost predicate AlwaysThere<T(!new)>(tables: nat -> map<int, T>, key: int) {
    forall n: nat :: key in tables(n)
  }

  function KeysOf<T>(rows: seq<(int, T)>): seq<int> {
    seq(|rows|, i requires 0 <= i < |rows| => rows[i].0)
  }

  function Fetch<T>(rows: map<int, T>, page: seq<int>): seq<(int, T)>
    requires forall i | 0 <= i < |page| :: page[i] in rows
  {
    seq(|page|, i requires 0 <= i < |page| && page[i] in rows => (page[i], rows[page[i]]))
  }

  lemma IncreasingAppend(a: seq<int>, b: seq<int>, last: int)
    requires Increasing(a) && Increasing(b) && b != []
    requires (forall k | k in a :: k <= last) && (forall k | k in b :: last < k)
    ensures Increasing(a + b) && forall k | k in a + b :: k <= b[|b| - 1]
  {
    forall i, j | 0 <= i < j < |a + b| ensures (a + b)[i] < (a + b)[j] {
      if i < |a| <= j {
        assert a[i] in a && b[j - |a|] in b;
      }
    }
    var end := b[|b| - 1];
    assert end in b;
  }

  ghost predicate AllSeen<T(!new)>(tables: nat -> map<int, T>, rows: seq<(int, T)>) {
    forall i | 0 <= i < |rows| :: SeenIn(tables, rows[i].0, rows[i].1)
  }

  lemma FetchSeen<T(!new)>(tables: nat -> map<int, T>, n: nat, page: seq<int>)
    requires forall i | 0 <= i < |page| :: page[i] in tables(n)
    ensures AllSeen(tables, Fetch(tables(n), page)) && KeysOf(Fetch(tables(n), page)) == page
  {
    forall i | 0 <= i < |page| ensures SeenIn(tables, page[i], tables(n)[page[i]]) {
      assert page[i] in page;
    }
  }

  lemma KeysAppend<T>(a: seq<(int, T)>, b: seq<(int, T)>)
    ensures KeysOf(a + b) == KeysOf(a) + KeysOf(b)
  {
  }

  /** The scan, where `tables(n)` is what the n-th query finds: it ends whatever is inserted,
      deleted or edited between pages; its keys strictly increase, so no row comes twice; every
      row it yields was found as yielded; and a row that matches throughout is yielded. */
  method Scan<T(!new)>(tables: nat -> map<int, T>, size: nat) returns (rows: seq<(int, T)>)
    requires forall n: nat, k | k in tables(n) :: 0 <= k < KEYS
    ensures Increasing(KeysOf(rows))
    ensures AllSeen(tables, rows)
    ensures size > 0 ==> forall k | AlwaysThere(tables, k) :: k in KeysOf(rows)
    ensures size == 0 ==> rows == []
  {
    rows := [];
    var n, last := 0, -1;
    while true
      invariant -1 <= last < KEYS
      invariant Increasing(KeysOf(rows)) && forall k | k in KeysOf(rows) :: k <= last
      invariant AllSeen(tables, rows)
      invariant size > 0 ==> forall k | AlwaysThere(tables, k) && 0 <= k <= last :: k in KeysOf(rows)
      invariant size == 0 ==> rows == []
      decreases KEYS - last
    {
      var page := Page(tables(n), last, size);
      PageFacts(tables(n), last, size);
      if page == [] { return; }
      IncreasingAppend(KeysOf(rows), page, last);
      FetchSeen(tables, n, page);
      KeysAppend(rows, Fetch(tables(n), page));
      rows := rows + Fetch(tables(n), page);
      last := page[|page| - 1];
      assert last in page;
      n := n + 1;
    }
  }

  /** A table nobody touches: the scan yields exactly its rows, in key order. */
  method ScanStatic<T(!new)>(table: map<int, T>, size: nat) returns (rows: seq<(int, T)>)
    requires size > 0 && forall k | k in table :: 0 <= k < KEYS
    ensures Increasing(KeysOf(rows))
    ensures forall k :: k in KeysOf(rows) <==> k in table
    ensures forall i | 0 <= i < |rows| :: rows[i].0 in table && table[rows[i].0] == rows[i].1
  {
    var tables := (n: nat) => table;
    rows := Scan(tables, size);
    forall k | k in table ensures k in KeysOf(rows) { assert AlwaysThere(tables, k); }
    forall i | 0 <= i < |rows| ensures rows[i].0 in table && table[rows[i].0] == rows[i].1 {
      assert SeenIn(tables, rows[i].0, rows[i].1);
    }
  }
}
