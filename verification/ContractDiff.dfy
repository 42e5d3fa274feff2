/** The difference of two manifests. */
module ContractDiff {
  import opened Sorting

  datatype FileHash = FileHash(path: string, sha256: string)

  type Files = map<string, string>

  /** A changed file's hash in the baseline and in the current manifest. */
  datatype Change = Change(baseline: string, current: string)

  datatype Diff = Diff(added: seq<(string, string)>, deleted: seq<(string, string)>, changed: seq<(string, Change)>)

  /** The files of a manifest by path; a later entry for a path wins. */
  function Index(files: seq<FileHash>): Files {
    if files == [] then map[]
    else Index(files[..|files| - 1])[files[|files| - 1].path := files[|files| - 1].sha256]
  }

  /** The last entry for a path decides, and nothing else is indexed. */
  lemma {:induction false} LastEntryWins(files: seq<FileHash>, path: string)
    ensures path in Index(files) <==> exists i :: 0 <= i < |files| && files[i].path == path
    ensures forall i | 0 <= i < |files| && files[i].path == path && (forall j | i < j < |files| :: files[j].path != path) ::
        Index(files)[path] == files[i].sha256
  {
    if files != [] {
      var n := |files| - 1;
      LastEntryWins(files[..n], path);
      if files[n].path != path {
        assert forall i | 0 <= i < n :: files[..n][i] == files[i];
      }
    }
  }

  /** The files of `a` that `b` lacks. */
  function Missing(a: Files, b: Files): Files {
    map path | path in a && path !in b :: a[path]
  }

  function Changes(base: Files, current: Files): map<string, Change> {
    map path | path in base && path in current && base[path] != current[path] :: Change(base[path], current[path])
  }

  ghost function Difference(base: Files, current: Files): Diff {
    Diff(Listing(Missing(current, base)), Listing(Missing(base, current)), Listing(Changes(base, current)))
  }

  method IndexFiles(files: seq<FileHash>) returns (byPath: Files)
    ensures byPath == Index(files)
  {
    byPath := map[];
    for i := 0 to |files|
      invariant byPath == Index(files[..i])
    {
      assert files[..i + 1][..i] == files[..i];
      byPath := byPath[files[i].path := files[i].sha256];
    }
    assert files[..|files|] == files;
  }

  /** Compare. The maps are ranged over in any order; the lists come out the same. */
  method Compare(baseline: seq<FileHash>, current: seq<FileHash>) returns (diff: Diff)
    ensures diff == Difference(Index(baseline), Index(current))
  {
    var baseFiles := IndexFiles(baseline);
    var currentFiles := IndexFiles(current);
    var added, changed := NewAndChanged(baseFiles, currentFiles);
    var deleted := Gone(baseFiles, currentFiles);
    GathersAll(added, Missing(currentFiles, baseFiles));
    GathersAll(changed, Changes(baseFiles, currentFiles));
    GathersAll(deleted, Missing(baseFiles, currentFiles));
    diff := Diff(Sort(added), Sort(deleted), Sort(changed));
  }

  method NewAndChanged(base: Files, current: Files) returns (added: seq<(string, string)>, changed: seq<(string, Change)>)
    ensures Gathers(added, Missing(current, base), {}) && Gathers(changed, Changes(base, current), {})
  {
    added, changed := [], [];
    ghost var missing, changes := Missing(current, base), Changes(base, current);
    var paths := current.Keys;
    while paths != {}
      invariant paths <= current.Keys && Gathers(added, missing, paths) && Gathers(changed, changes, paths)
      decreases paths
    {
      var path :| path in paths;
      GathersOneMore(added, missing, paths, path);
      GathersOneMore(changed, changes, paths, path);
      paths := paths - {path};
      if path !in base {
        added := added + [(path, current[path])];
      } else if base[path] != current[path] {
        changed := changed + [(path, Change(base[path], current[path]))];
      }
    }
  }

  method Gone(base: Files, current: Files) returns (deleted: seq<(string, string)>)
    ensures Gathers(deleted, Missing(base, current), {})
  {
    deleted := [];
    ghost var missing := Missing(base, current);
    var paths := base.Keys;
    while paths != {}
      invariant paths <= base.Keys && Gathers(deleted, missing, paths)
      decreases paths
    {
      var path :| path in paths;
      GathersOneMore(deleted, missing, paths, path);
      paths := paths - {path};
      if path !in current {
        deleted := deleted + [(path, base[path])];
      }
    }
  }

  function HasChanges(diff: Diff): bool {
    |diff.added| > 0 || |diff.deleted| > 0 || |diff.changed| > 0
  }

  // ---- laws ---------------------------------------------------------------------------------

  predicate Names<T>(rows: seq<(string, T)>, path: string) {
    exists i :: 0 <= i < |rows| && rows[i].0 == path
  }

  lemma ListingNames<T(!new)>(m: map<string, T>, path: string)
    ensures Names(Listing(m), path) <==> path in m
  {
    ListingLists(m);
    if path in m {
      assert (path, m[path]) in Listing(m);
    }
    if Names(Listing(m), path) {
      var i :| 0 <= i < |Listing(m)| && Listing(m)[i].0 == path;
      assert Listing(m)[i] in Listing(m);
    }
  }

  /** Each list is strictly sorted, and no path is in two of them. */
  lemma ListsAreSortedAndDisjoint(base: Files, current: Files, path: string)
    ensures var diff := Difference(base, current);
      && Sorted(diff.added) && Sorted(diff.deleted) && Sorted(diff.changed)
      && !(Names(diff.added, path) && Names(diff.deleted, path))
      && !(Names(diff.added, path) && Names(diff.changed, path))
      && !(Names(diff.deleted, path) && Names(diff.changed, path))
  {
    ListingLists(Missing(current, base));
    ListingLists(Missing(base, current));
    ListingLists(Changes(base, current));
    ListingNames(Missing(current, base), path);
    ListingNames(Missing(base, current), path);
    ListingNames(Changes(base, current), path);
  }

  // ---- a difference is a patch --------------------------------------------------------------

  function Remove(files: Files, rows: seq<(string, string)>): Files {
    if rows == [] then files
    else
      var rest := Remove(files, rows[..|rows| - 1]);
      map path | path in rest && path != rows[|rows| - 1].0 :: rest[path]
  }

  function Add(files: Files, rows: seq<(string, string)>): Files {
    if rows == [] then files
    else Add(files, rows[..|rows| - 1])[rows[|rows| - 1].0 := rows[|rows| - 1].1]
  }

  function Replace(files: Files, rows: seq<(string, Change)>): Files {
    if rows == [] then files
    else Replace(files, rows[..|rows| - 1])[rows[|rows| - 1].0 := rows[|rows| - 1].1.current]
  }

  /** Delete what was deleted, add what was added, replace what changed, row by row. */
  function Patch(files: Files, diff: Diff): Files {
    Replace(Add(Remove(files, diff.deleted), diff.added), diff.changed)
  }

  lemma {:induction false} RemoveAt(files: Files, rows: seq<(string, string)>, path: string)
    ensures path in Remove(files, rows) <==> path in files && !Names(rows, path)
    ensures path in Remove(files, rows) ==> Remove(files, rows)[path] == files[path]
  {
    if rows != [] {
      RemoveAt(files, rows[..|rows| - 1], path);
      NamesOneMore(rows, path);
    }
  }

  lemma NamesOneMore<T>(rows: seq<(string, T)>, path: string)
    requires rows != []
    ensures Names(rows, path) <==> Names(rows[..|rows| - 1], path) || rows[|rows| - 1].0 == path
  {
    var front := rows[..|rows| - 1];
    if Names(front, path) {
      var i :| 0 <= i < |front| && front[i].0 == path;
      assert rows[i].0 == path;
    }
    if Names(rows, path) && rows[|rows| - 1].0 != path {
      var i :| 0 <= i < |rows| && rows[i].0 == path;
      assert front[i].0 == path;
    }
  }

  lemma {:induction false} AddAt(files: Files, rows: seq<(string, string)>, i: nat, path: string)
    requires DistinctKeys(rows)
    ensures path in Add(files, rows) <==> path in files || Names(rows, path)
    ensures i < |rows| ==> rows[i].0 in Add(files, rows) && Add(files, rows)[rows[i].0] == rows[i].1
    ensures path in files && !Names(rows, path) ==> path in Add(files, rows) && Add(files, rows)[path] == files[path]
  {
    if rows != [] {
      AddAt(files, rows[..|rows| - 1], i, path);
      NamesOneMore(rows, path);
    }
  }

  lemma {:induction false} ReplaceAt(files: Files, rows: seq<(string, Change)>, i: nat, path: string)
    requires DistinctKeys(rows)
    ensures path in Replace(files, rows) <==> path in files || Names(rows, path)
    ensures i < |rows| ==> rows[i].0 in Replace(files, rows) && Replace(files, rows)[rows[i].0] == rows[i].1.current
    ensures path in files && !Names(rows, path) ==> path in Replace(files, rows) && Replace(files, rows)[path] == files[path]
  {
    if rows != [] {
      ReplaceAt(files, rows[..|rows| - 1], i, path);
      NamesOneMore(rows, path);
    }
  }

  /** Applying the difference to the baseline gives the current manifest. */
  lemma PatchLaw(base: Files, current: Files)
    ensures Patch(base, Difference(base, current)) == current
  {
    var patched := Patch(base, Difference(base, current));
    forall path ensures path in patched <==> path in current
                ensures path in patched ==> patched[path] == current[path]
    {
      PatchLawAt(base, current, path);
    }
    assert patched.Keys == current.Keys;
  }

  lemma PatchLawAt(base: Files, current: Files, path: string)
    ensures var patched := Patch(base, Difference(base, current));
      (path in patched <==> path in current) && (path in patched ==> patched[path] == current[path])
  {
    var diff := Difference(base, current);
    ListsAreSortedAndDisjoint(base, current, path);
    ListingNames(Missing(current, base), path);
    ListingNames(Missing(base, current), path);
    ListingNames(Changes(base, current), path);
    var removed := Remove(base, diff.deleted);
    var added := Add(removed, diff.added);
    RemoveAt(base, diff.deleted, path);
    SortedIsDistinct(diff.added);
    SortedIsDistinct(diff.changed);
    var i := RowOf(Missing(current, base), path);
    AddAt(removed, diff.added, i, path);
    var j := RowOf(Changes(base, current), path);
    ReplaceAt(added, diff.changed, j, path);
  }

  lemma SortedIsDistinct<T>(rows: seq<(string, T)>)
    requires Sorted(rows)
    ensures DistinctKeys(rows)
  {
    forall i, j | 0 <= i < j < |rows| ensures rows[i].0 != rows[j].0 {
      LessIsIrreflexive(rows[i].0);
    }
  }

  /** Where the list of a map has the row of a path. */
  lemma RowOf<T(!new)>(m: map<string, T>, path: string) returns (i: nat)
    ensures path in m ==> i < |Listing(m)| && Listing(m)[i] == (path, m[path])
  {
    i := 0;
    if path in m {
      ListingLists(m);
      assert (path, m[path]) in Listing(m);
      i :| i < |Listing(m)| && Listing(m)[i] == (path, m[path]);
    }
  }

  /** The patch fits: what it deletes or changes is there with the hash it names, and what it adds is not. */
  lemma PatchFits(base: Files, current: Files)
    ensures var diff := Difference(base, current);
      && (forall x | x in diff.deleted :: x.0 in base && base[x.0] == x.1)
      && (forall x | x in diff.changed :: x.0 in base && base[x.0] == x.1.baseline && x.1.baseline != x.1.current)
      && (forall x | x in diff.added :: x.0 !in base)
  {
    ListingLists(Missing(current, base));
    ListingLists(Missing(base, current));
    ListingLists(Changes(base, current));
  }

  /** There are no changes exactly if both manifests say the same of every path. */
  lemma NoChangesExactlyWhenEqual(base: Files, current: Files)
    ensures !HasChanges(Difference(base, current)) <==> base == current
  {
    ListingEmpty(Missing(current, base));
    ListingEmpty(Missing(base, current));
    ListingEmpty(Changes(base, current));
    if !HasChanges(Difference(base, current)) {
      forall path ensures path in base <==> path in current
                  ensures path in base && path in current ==> base[path] == current[path]
      {
        assert path !in Missing(current, base) && path !in Missing(base, current) && path !in Changes(base, current);
      }
      assert base.Keys == current.Keys;
    }
  }

  lemma ListingEmpty<T(!new)>(m: map<string, T>)
    ensures |Listing(m)| == 0 <==> m.Keys == {}
  {
    ListingLists(m);
    if Listing(m) != [] {
      var x := Listing(m)[0];
      assert x in Listing(m);
      assert x.0 in m;
    }
    forall path | path in m ensures (path, m[path]) in Listing(m) {}
  }

  function Flip(change: Change): Change {
    Change(change.current, change.baseline)
  }

  function FlipAll(rows: seq<(string, Change)>): (r: seq<(string, Change)>)
    ensures |r| == |rows| && forall i | 0 <= i < |r| :: r[i] == (rows[i].0, Flip(rows[i].1))
  {
    if rows == [] then [] else [(rows[0].0, Flip(rows[0].1))] + FlipAll(rows[1..])
  }

  /** Comparing the other way round swaps the added with the deleted and flips each change. */
  lemma SwappedDifference(base: Files, current: Files)
    ensures var diff := Difference(base, current);
      Difference(current, base) == Diff(diff.deleted, diff.added, FlipAll(diff.changed))
  {
    var there, back := Changes(base, current), Changes(current, base);
    var rows := Listing(there);
    var flipped := FlipAll(rows);
    ListingLists(there);
    ListingLists(back);
    forall x | x in flipped ensures x.0 in back && back[x.0] == x.1 {
      var i :| 0 <= i < |flipped| && flipped[i] == x;
      assert rows[i] in rows;
    }
    forall path | path in back ensures (path, back[path]) in flipped {
      var i := RowOf(there, path);
      assert flipped[i] == (path, back[path]);
    }
    ListsIsUnique(flipped, Listing(back), back);
  }
}
