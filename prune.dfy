/**
 * `cleanEmptyFoldersRecursively`: a post-order walk that removes every
 * subfolder with no file anywhere beneath it.  The folder it starts from
 * is never removed.
 */
module Pruning {
  import opened Paths
  import opened FileSystems

  /** Some file lies at or beneath `k`. */
  ghost predicate HasFileBelow(m: Entries, k: Location) {
    exists j :: j in m && Within(k, j) && m[j].File?
  }

  /** `k` is a folder under `d` (or `d` itself when it is a subfolder) with no file beneath. */
  ghost predicate Removable(m: Entries, d: Location, isSub: bool, k: Location) {
    k in m && m[k].Dir? && Within(d, k) && (k != d || isSub) && !HasFileBelow(m, k)
  }

  /** What a walk from `d` removes. */
  ghost function Removed(m: Entries, d: Location, isSub: bool): (r: set<Location>) {
    set k | k in m && Removable(m, d, isSub, k)
  }

  /** The locations at or beneath `d`: the measure of the walk. */
  function Subtree(m: Entries, d: Location): (r: set<Location>) {
    set k | k in m && Within(d, k)
  }

  /** What the children of `d` named in `done` have removed. */
  ghost function Swept(m: Entries, d: Location, done: seq<string>): (r: set<Location>) {
    set k | k in m && |k| > |d| && k[|d|] in done && Removable(m, d, true, k)
  }

  /** `a` and `b` agree at and beneath `c`. */
  ghost predicate AgreeBelow(a: Entries, b: Entries, c: Location) {
    forall k :: Within(c, k) ==> (k in a <==> k in b) && (k in a ==> a[k] == b[k])
  }

  /** The first step below `d` on the way to `k`. */
  lemma ChildOnTheWay(m: Entries, d: Location, k: Location)
    requires WellFormed(m) && k in m && Within(d, k) && k != d
    ensures var c := k[..|d| + 1];
      c in m && Within(d, c) && Within(c, k) && |c| == |d| + 1 && c[..|d|] == d && c[|d|] == k[|d|]
  {
    var c := k[..|d| + 1];
    assert c[..|d|] == d;
    if c != k {
      AncestorIsDir(m, c, k);
    }
  }

  /** The removals beneath `c` depend only on what lies beneath `c`. */
  lemma RemovedIsLocal(a: Entries, b: Entries, c: Location, isSub: bool)
    requires AgreeBelow(a, b, c)
    ensures Removed(a, c, isSub) == Removed(b, c, isSub)
  {
    forall k | Within(c, k) && k in a
      ensures HasFileBelow(a, k) <==> HasFileBelow(b, k)
    {
      if HasFileBelow(a, k) {
        var j :| j in a && Within(k, j) && a[j].File?;
        WithinTrans(c, k, j);
      }
      if HasFileBelow(b, k) {
        var j :| j in b && Within(k, j) && b[j].File?;
        WithinTrans(c, k, j);
      }
    }
  }

  /** A file has nothing beneath it to remove. */
  lemma NothingBelowFile(m: Entries, d: Location, isSub: bool)
    requires WellFormed(m) && d in m && m[d].File?
    ensures Removed(m, d, isSub) == {}
  {
    forall k | k in m && Within(d, k) && k != d
      ensures false
    {
      AncestorIsDir(m, d, k);
    }
  }

  /** Once every child has been walked, the sweep is everything strictly beneath `d`. */
  lemma SweptAll(m: Entries, d: Location, names: seq<string>)
    requires WellFormed(m)
    requires forall x :: x in names <==> x in ChildNames(m, d)
    ensures Swept(m, d, names) == Removed(m, d, false)
  {
    forall k | k in Removed(m, d, false)
      ensures k in Swept(m, d, names)
    {
      ChildOnTheWay(m, d, k);
      assert k[|d|] in ChildNames(m, d);
    }
  }

  /** After the sweep, `d` lists nothing exactly when no file lies beneath it. */
  lemma EmptyAfterSweep(m: Entries, d: Location)
    requires WellFormed(m) && d in m && m[d].Dir?
    ensures ChildNames(m - Removed(m, d, false), d) == {} <==> !HasFileBelow(m, d)
  {
    var e := m - Removed(m, d, false);
    if HasFileBelow(m, d) {
      var j :| j in m && Within(d, j) && m[j].File?;
      ChildOnTheWay(m, d, j);
      var c := j[..|d| + 1];
      assert c in e;
      assert c[|d|] in ChildNames(e, d);
    } else {
      forall k | k in e && |k| == |d| + 1 && k[..|d|] == d
        ensures false
      {
        forall j | j in m && Within(k, j)
          ensures !m[j].File?
        {
          WithinTrans(d, k, j);
        }
        assert Removable(m, d, false, k);
      }
      ChildNamesEmpty(e, d);
    }
  }

  /** The walk from a folder removes the sweep, and the folder itself when it is an empty
      subfolder. */
  lemma RemovedSplit(m: Entries, d: Location)
    requires d in m && m[d].Dir?
    ensures Removed(m, d, true) == Removed(m, d, false) + (if HasFileBelow(m, d) then {} else {d})
  {
  }

  /** One child walked: a child's removals are what the sweep gains. */
  lemma SweepStep(m: Entries, d: Location, names: seq<string>, i: nat)
    requires i < |names|
    requires forall a, b :: 0 <= a < b < |names| ==> names[a] != names[b]
    ensures AgreeBelow(m - Swept(m, d, names[..i]), m, d + [names[i]])
    ensures m - Swept(m, d, names[..i]) - Removed(m, d + [names[i]], true)
         == m - Swept(m, d, names[..i + 1])
  {
    var c := d + [names[i]];
    forall k | Within(c, k)
      ensures k !in Swept(m, d, names[..i])
    {
      assert k[..|c|][|d|] == names[i];
    }
    forall k | k in m
      ensures (k in Removed(m, c, true)) <==> (|k| > |d| && k[|d|] == names[i] && Removable(m, d, true, k))
    {
      if |k| > |d| && k[|d|] == names[i] && Within(d, k) {
        assert k[..|c|] == c;
      }
      if Within(c, k) {
        WithinTrans(d, c, k);
        assert k[..|c|][|d|] == names[i];
      }
    }
    assert names[..i + 1] == names[..i] + [names[i]];
  }

  /** The child walked in step `i` still exists and its subtree is smaller than the walk's. */
  lemma ChildStep(m: Entries, d: Location, names: seq<string>, i: nat)
    requires d in m && i < |names|
    requires forall x :: x in names <==> x in ChildNames(m, d)
    requires forall a, b :: 0 <= a < b < |names| ==> names[a] != names[b]
    ensures var c := d + [names[i]];
      && c in m - Swept(m, d, names[..i])
      && Subtree(m - Swept(m, d, names[..i]), c) < Subtree(m, d)
  {
    var c := d + [names[i]];
    var e := m - Swept(m, d, names[..i]);
    assert names[i] in ChildNames(m, d);
    var k :| k in m && |k| == |d| + 1 && k[..|d|] == d && k[|d|] == names[i];
    assert k == c;
    assert c[|d|] !in names[..i];
    forall k | k in Subtree(e, c)
      ensures k in Subtree(m, d)
    {
      WithinTrans(d, c, k);
    }
    assert d !in Subtree(e, c);
    assert d in Subtree(m, d);
  }

  /** The end of a walk from folder `d`, once all its children have been walked. */
  lemma AfterSweep(m: Entries, d: Location, names: seq<string>)
    requires WellFormed(m) && d in m && m[d].Dir?
    requires forall x :: x in names <==> x in ChildNames(m, d)
    ensures m - Swept(m, d, names) == m - Removed(m, d, false)
    ensures ChildNames(m - Swept(m, d, names), d) == {} <==> !HasFileBelow(m, d)
    ensures HasFileBelow(m, d) ==> m - Removed(m, d, true) == m - Removed(m, d, false)
    ensures !HasFileBelow(m, d) ==> m - Removed(m, d, true) == (m - Removed(m, d, false)) - {d}
  {
    SweptAll(m, d, names);
    EmptyAfterSweep(m, d);
    RemovedSplit(m, d);
  }

  /** The walk: `isSub` is false for the folder the user named. */
  method CleanEmptyFolders(fs: FileSystem, d: Location, isSub: bool)
    requires fs.Valid() && d in fs.entries && (isSub ==> d != [])
    modifies fs
    ensures fs.Valid()
    ensures fs.entries == old(fs.entries) - Removed(old(fs.entries), d, isSub)
    decreases Subtree(fs.entries, d)
  {
    ghost var m := fs.entries;
    var isDir := fs.IsDirectory(d);
    if !isDir {
      NothingBelowFile(m, d, isSub);
      return;
    }
    var names := fs.ReaddirSync(d);
    ghost var listed := names;
    if |names| > 0 {
      for i := 0 to |names|
        invariant fs.Valid()
        invariant fs.entries == m - Swept(m, d, names[..i])
      {
        ChildStep(m, d, names, i);
        SweepStep(m, d, names, i);
        ghost var before := fs.entries;
        CleanEmptyFolders(fs, d + [names[i]], true);
        RemovedIsLocal(before, m, d + [names[i]], true);
      }
      assert names[..|names|] == names;
      if isSub {
        names := fs.ReaddirSync(d);
      }
    } else {
      assert Swept(m, d, names) == {};
      assert m - Swept(m, d, names) == m;
    }
    AfterSweep(m, d, listed);
    if |names| > 0 && isSub {
      assert names[0] in ChildNames(fs.entries, d);
    }
    if |names| == 0 && isSub {
      assert ChildNames(fs.entries, d) == {};
      fs.RmdirSync(d);
    }
  }

  /** `cleanEmptyFoldersRecursively(folder)` on an existing folder. */
  method CleanEmptyFoldersRecursively(fs: FileSystem, folder: string)
    requires fs.Valid() && Resolve(folder) in fs.entries
    modifies fs
    ensures fs.Valid()
    ensures fs.entries == old(fs.entries) - Removed(old(fs.entries), Resolve(folder), false)
  {
    CleanEmptyFolders(fs, Resolve(folder), false);
  }

  // ---------------------------------------------------------------------
  // What the walk promises

  /** The starting folder, every file and every folder with a file beneath it stay. */
  lemma PruneKeeps(m: Entries, d: Location, k: Location)
    requires k in m
    requires k == d || m[k].File? || HasFileBelow(m, k) || !Within(d, k)
    ensures k in m - Removed(m, d, false)
  {
  }

  /** A folder strictly beneath `d` goes exactly when no file lies beneath it. */
  lemma PruneRemovesEmptySubfolders(m: Entries, d: Location, k: Location)
    requires WellFormed(m) && k in m && Within(d, k) && k != d
    ensures k !in m - Removed(m, d, false) <==> !HasFileBelow(m, k)
  {
    if !HasFileBelow(m, k) {
      assert Within(k, k);
    }
  }

  /** Pruning keeps a tree a tree. */
  lemma PrunedWellFormed(m: Entries, d: Location, isSub: bool)
    requires WellFormed(m) && (isSub ==> d != [])
    ensures WellFormed(m - Removed(m, d, isSub))
  {
    var e := m - Removed(m, d, isSub);
    forall k | k in e && k != []
      ensures Parent(k) in e && e[Parent(k)].Dir?
    {
      var p := Parent(k);
      assert Within(p, k);
      if Within(d, p) && (p != d || isSub) {
        if m[k].File? {
          assert HasFileBelow(m, p);
        } else {
          WithinTrans(d, p, k);
          assert !Removable(m, d, isSub, k);
          var j :| j in m && Within(k, j) && m[j].File?;
          WithinTrans(p, k, j);
          assert HasFileBelow(m, p);
        }
      }
    }
  }

  /** A second walk removes nothing more. */
  lemma PruneIdempotent(m: Entries, d: Location, isSub: bool)
    ensures Removed(m - Removed(m, d, isSub), d, isSub) == {}
  {
    var e := m - Removed(m, d, isSub);
    forall k | k in e && e[k].Dir? && Within(d, k) && (k != d || isSub)
      ensures HasFileBelow(e, k)
    {
      var j :| j in m && Within(k, j) && m[j].File?;
      assert j in e;
    }
  }

  /** A/B/C with C empty: C and B go, A stays. */
  lemma PruneNested()
    ensures var m := map[[] := Dir, ["A"] := Dir, ["A", "B"] := Dir, ["A", "B", "C"] := Dir];
      m - Removed(m, ["A"], false) == map[[] := Dir, ["A"] := Dir]
  {
    var m := map[[] := Dir, ["A"] := Dir, ["A", "B"] := Dir, ["A", "B", "C"] := Dir];
    assert !HasFileBelow(m, ["A", "B"]);
    assert !HasFileBelow(m, ["A", "B", "C"]);
    assert ["A", "B"][..1] == ["A"];
    assert ["A", "B", "C"][..1] == ["A"];
    assert Removed(m, ["A"], false) == {["A", "B"], ["A", "B", "C"]};
  }
}
