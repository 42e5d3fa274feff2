/** Go's string order, sort.Slice on rows with a string key, and lists that represent a map. */
module Sorting {
  /** a < b, character by character. */
  predicate Less(a: string, b: string) {
    b != [] && (a == [] || a[0] < b[0] || (a[0] == b[0] && Less(a[1..], b[1..])))
  }

  /** The texts agree before `k`, and there the first ends or has the smaller character. */
  predicate DifferFirstAt(a: string, b: string, k: nat) {
    k <= |a| && k < |b| && a[..k] == b[..k] && (k == |a| || a[k] < b[k])
  }

  lemma {:induction false} LessExactly(a: string, b: string)
    ensures Less(a, b) <==> exists k: nat :: DifferFirstAt(a, b, k)
  {
    if a == [] || b == [] || a[0] != b[0] {
      assert Less(a, b) ==> DifferFirstAt(a, b, 0);
      forall k: nat | DifferFirstAt(a, b, k) ensures Less(a, b) {
        if k > 0 { DifferLater(a, b, k); }
      }
    } else {
      LessExactly(a[1..], b[1..]);
      if k: nat :| DifferFirstAt(a, b, k) {
        DifferBehind(a, b, k - 1);
      }
      if k: nat :| DifferFirstAt(a[1..], b[1..], k) {
        DifferBehind(a, b, k);
      }
    }
  }

  lemma DifferLater(a: string, b: string, k: nat)
    requires DifferFirstAt(a, b, k) && k > 0
    ensures a[0] == b[0]
  {
    assert a[..k][0] == b[..k][0];
  }

  lemma DifferBehind(a: string, b: string, k: nat)
    requires a != [] && b != [] && a[0] == b[0]
    ensures DifferFirstAt(a, b, k + 1) <==> DifferFirstAt(a[1..], b[1..], k)
  {
    if k < |a| && k < |b| {
      assert a[..k + 1] == [a[0]] + a[1..][..k] && b[..k + 1] == [b[0]] + b[1..][..k];
    }
  }

  lemma {:induction false} LessIsTotal(a: string, b: string)
    ensures a == b || Less(a, b) || Less(b, a)
  {
    if a != [] && b != [] && a[0] == b[0] {
      LessIsTotal(a[1..], b[1..]);
      assert a == [a[0]] + a[1..] && b == [b[0]] + b[1..];
    }
  }

  lemma {:induction false} LessIsIrreflexive(a: string)
    ensures !Less(a, a)
  {
    if a != [] { LessIsIrreflexive(a[1..]); }
  }

  lemma {:induction false} LessIsTransitive(a: string, b: string, c: string)
    requires Less(a, b) && Less(b, c)
    ensures Less(a, c)
  {
    if a != [] && a[0] == b[0] && b[0] == c[0] {
      LessIsTransitive(a[1..], b[1..], c[1..]);
    }
  }

  predicate Sorted<T>(rows: seq<(string, T)>) {
    forall i, j | 0 <= i < j < |rows| :: Less(rows[i].0, rows[j].0)
  }

  predicate DistinctKeys<T>(rows: seq<(string, T)>) {
    forall i, j | 0 <= i < j < |rows| :: rows[i].0 != rows[j].0
  }

  function Insert<T(!new)>(row: (string, T), rows: seq<(string, T)>): (r: seq<(string, T)>)
    ensures forall x :: x in r <==> x == row || x in rows
  {
    if rows == [] || Less(row.0, rows[0].0) then [row] + rows
    else [rows[0]] + Insert(row, rows[1..])
  }

  /** What sort.Slice leaves behind when it orders rows by key. */
  function Sort<T(!new)>(rows: seq<(string, T)>): seq<(string, T)> {
    if rows == [] then [] else Insert(rows[0], Sort(rows[1..]))
  }

  lemma {:induction false} SortKeeps<T(!new)>(rows: seq<(string, T)>)
    ensures forall x :: x in Sort(rows) <==> x in rows
  {
    if rows != [] { SortKeeps(rows[1..]); }
  }

  lemma {:induction false} InsertSorts<T(!new)>(row: (string, T), rows: seq<(string, T)>)
    requires Sorted(rows) && forall x | x in rows :: x.0 != row.0
    ensures Sorted(Insert(row, rows))
  {
    if rows == [] {
    } else if Less(row.0, rows[0].0) {
      forall j | 1 <= j < |rows| ensures Less(row.0, rows[j].0) {
        LessIsTransitive(row.0, rows[0].0, rows[j].0);
      }
    } else {
      LessIsTotal(row.0, rows[0].0);
      InsertSorts(row, rows[1..]);
      forall x | x in Insert(row, rows[1..]) ensures Less(rows[0].0, x.0) {
        if x in rows[1..] {
          var j :| 0 <= j < |rows[1..]| && rows[1..][j] == x;
          assert rows[j + 1] == x;
        }
      }
    }
  }

  lemma {:induction false} SortSorts<T(!new)>(rows: seq<(string, T)>)
    requires DistinctKeys(rows)
    ensures Sorted(Sort(rows))
  {
    if rows != [] {
      SortSorts(rows[1..]);
      SortKeeps(rows[1..]);
      forall x | x in Sort(rows[1..]) ensures x.0 != rows[0].0 {
        var j :| 0 <= j < |rows[1..]| && rows[1..][j] == x;
        assert rows[j + 1] == x;
      }
      InsertSorts(rows[0], Sort(rows[1..]));
    }
  }

  /** `rows` has one row for each entry of `m`, in key order. */
  ghost predicate Lists<T>(rows: seq<(string, T)>, m: map<string, T>) {
    && Sorted(rows)
    && (forall x | x in rows :: x.0 in m && m[x.0] == x.1)
    && (forall k | k in m :: (k, m[k]) in rows)
  }

  lemma SortLists<T(!new)>(rows: seq<(string, T)>, m: map<string, T>)
    requires DistinctKeys(rows)
    requires forall x | x in rows :: x.0 in m && m[x.0] == x.1
    requires forall k | k in m :: (k, m[k]) in rows
    ensures Lists(Sort(rows), m)
  {
    SortSorts(rows);
    SortKeeps(rows);
  }

  /** A map has one such list only, so the order in which a map was visited leaves no trace. */
  lemma {:induction false} ListsIsUnique<T>(rows: seq<(string, T)>, rows': seq<(string, T)>, m: map<string, T>)
    requires Lists(rows, m) && Lists(rows', m)
    ensures rows == rows'
  {
    if rows == [] {
      if rows' != [] { FirstIsFirst(rows', rows, m); }
    } else {
      SameFirst(rows, rows', m);
      var rest := Without(m, rows[0].0);
      RestLists(rows, m, rest);
      RestLists(rows', m, rest);
      ListsIsUnique(rows[1..], rows'[1..], rest);
      assert rows == [rows[0]] + rows[1..] && rows' == [rows'[0]] + rows'[1..];
    }
  }

  lemma SameFirst<T>(rows: seq<(string, T)>, rows': seq<(string, T)>, m: map<string, T>)
    requires Lists(rows, m) && Lists(rows', m) && rows != []
    ensures rows' != [] && rows'[0] == rows[0]
  {
    FirstIsFirst(rows, rows', m);
    FirstIsFirst(rows', rows, m);
    if rows'[0] != rows[0] {
      LessIsTransitive(rows[0].0, rows'[0].0, rows[0].0);
      LessIsIrreflexive(rows[0].0);
    }
  }

  lemma FirstIsFirst<T>(rows: seq<(string, T)>, rows': seq<(string, T)>, m: map<string, T>)
    requires Lists(rows, m) && Lists(rows', m) && rows != []
    ensures rows' != [] && (rows'[0] == rows[0] || Less(rows'[0].0, rows[0].0))
  {
    assert rows[0] in rows;
    assert (rows[0].0, m[rows[0].0]) in rows';
    var j :| 0 <= j < |rows'| && rows'[j] == rows[0];
  }

  function Without<T>(m: map<string, T>, key: string): map<string, T> {
    map k | k in m && k != key :: m[k]
  }

  lemma RestLists<T>(rows: seq<(string, T)>, m: map<string, T>, rest: map<string, T>)
    requires Lists(rows, m) && rows != [] && rest == Without(m, rows[0].0)
    ensures Lists(rows[1..], rest)
  {
    forall x | x in rows[1..] ensures x.0 in rest && rest[x.0] == x.1 {
      var j :| 0 <= j < |rows[1..]| && rows[1..][j] == x;
      assert rows[j + 1] == x && x in rows;
      LessIsIrreflexive(x.0);
    }
    forall k | k in rest ensures (k, rest[k]) in rows[1..] {
      assert (k, m[k]) in rows;
      var j :| 0 <= j < |rows| && rows[j] == (k, m[k]);
      assert rows[1..][j - 1] == rows[j];
    }
  }

  // ---- the list of a map --------------------------------------------------------------------

  /** The entries of a map in some order. */
  ghost function RowsOf<T>(m: map<string, T>): seq<(string, T)>
    decreases m.Keys
  {
    if m.Keys == {} then []
    else
      var k :| k in m;
      [(k, m[k])] + RowsOf(Without(m, k))
  }

  /** The entries of a map in key order. */
  ghost function Listing<T(!new)>(m: map<string, T>): seq<(string, T)> {
    Sort(RowsOf(m))
  }

  lemma {:induction false} RowsOfMap<T>(m: map<string, T>)
    ensures DistinctKeys(RowsOf(m))
    ensures forall x | x in RowsOf(m) :: x.0 in m && m[x.0] == x.1
    ensures forall k | k in m :: (k, m[k]) in RowsOf(m)
    decreases m.Keys
  {
    if m.Keys != {} {
      var k :| k in m && RowsOf(m) == [(k, m[k])] + RowsOf(Without(m, k));
      var rest := RowsOf(Without(m, k));
      RowsOfMap(Without(m, k));
      forall i | 0 <= i < |rest| ensures rest[i].0 != k {
        assert rest[i] in rest;
      }
      forall key | key in m ensures (key, m[key]) in RowsOf(m) {
        assert key != k ==> (key, Without(m, k)[key]) in rest;
      }
    }
  }

  lemma ListingLists<T(!new)>(m: map<string, T>)
    ensures Lists(Listing(m), m)
  {
    RowsOfMap(m);
    SortLists(RowsOf(m), m);
  }

  /** A range over a map, gathering its entries, has done all keys but those `left`. */
  ghost predicate Gathers<T>(rows: seq<(string, T)>, m: map<string, T>, left: set<string>) {
    && DistinctKeys(rows)
    && (forall x | x in rows :: x.0 in m && m[x.0] == x.1 && x.0 !in left)
    && (forall k | k in m && k !in left :: (k, m[k]) in rows)
  }

  lemma GathersOneMore<T>(rows: seq<(string, T)>, m: map<string, T>, left: set<string>, key: string)
    requires Gathers(rows, m, left) && key in left
    ensures Gathers(if key in m then rows + [(key, m[key])] else rows, m, left - {key})
  {
    assert forall i | 0 <= i < |rows| :: rows[i] in rows;
  }

  /** Sorting what such a range gathers gives the list of the map, whatever the order of the range. */
  lemma GathersAll<T(!new)>(rows: seq<(string, T)>, m: map<string, T>)
    requires Gathers(rows, m, {})
    ensures Sort(rows) == Listing(m)
  {
    SortLists(rows, m);
    ListingLists(m);
    ListsIsUnique(Sort(rows), Listing(m), m);
  }

  /** Ranging over a map, appending each entry and sorting by key. */
  method ListMap<T(!new)>(m: map<string, T>) returns (rows: seq<(string, T)>)
    ensures rows == Listing(m)
  {
    rows := [];
    var keys := m.Keys;
    while keys != {}
      invariant keys <= m.Keys && Gathers(rows, m, keys)
      decreases keys
    {
      var k :| k in keys;
      GathersOneMore(rows, m, keys, k);
      rows := rows + [(k, m[k])];
      keys := keys - {k};
    }
    GathersAll(rows, m);
    rows := Sort(rows);
  }
}
