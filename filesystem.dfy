/**
 * The file system the move pass and the pruner work on, and the Node `fs`
 * calls they make.
 *
 * Locations are segment lists (`Paths.Resolve` of a path string); the root
 * `[]` is `/`.  There is no working directory: a relative path is read from
 * the root, and `.` and `..` are ordinary names.  Each location holds a folder or a file with its content and
 * its three timestamps.  A call can be refused by the environment
 * (permissions, I/O errors): the `denied` flag of each call stands for that.
 */
module FileSystems {
  import opened Wrappers
  import opened Paths

  type Byte = b: int | 0 <= b < 256

  /** Birth, modification and access time, in whole milliseconds. */
  datatype Times = Times(btime: int, mtime: int, atime: int)

  datatype Node = Dir | File(content: seq<Byte>, times: Times)

  type Location = seq<string>

  type Entries = map<Location, Node>

  function Parent(k: Location): (r: Location)
    requires k != []
  {
    k[..|k| - 1]
  }

  /** `k` is `d` or lies inside `d`. */
  predicate Within(d: Location, k: Location) {
    |d| <= |k| && k[..|d|] == d
  }

  /** A tree: the root is a folder and every other location sits in a folder. */
  ghost predicate WellFormed(m: Entries) {
    && [] in m && m[[]].Dir?
    && forall k :: k in m && k != [] ==> Parent(k) in m && m[Parent(k)].Dir?
  }

  /** `dir` and every folder above it. */
  function Prefixes(dir: Location): (r: set<Location>) {
    set i | 0 <= i <= |dir| :: dir[..i]
  }

  /** The locations directly inside `d`. */
  function Children(m: Entries, d: Location): (r: set<Location>) {
    set k | k in m && |k| == |d| + 1 && k[..|d|] == d
  }

  /** The names `readdirSync(d)` lists. */
  function ChildNames(m: Entries, d: Location): (r: set<string>) {
    set k | k in m && |k| == |d| + 1 && k[..|d|] == d :: k[|d|]
  }

  /** A folder lists no names exactly when nothing is inside it. */
  lemma ChildNamesEmpty(m: Entries, d: Location)
    ensures ChildNames(m, d) == {} <==> Children(m, d) == {}
  {
    if Children(m, d) != {} {
      var k :| k in Children(m, d);
      assert k[|d|] in ChildNames(m, d);
    }
    if ChildNames(m, d) != {} {
      var x :| x in ChildNames(m, d);
      var k :| k in m && |k| == |d| + 1 && k[..|d|] == d && k[|d|] == x;
      assert k in Children(m, d);
    }
  }

  // ---------------------------------------------------------------------
  // The effect of each call; None when the call throws

  lemma WithinTrans(a: Location, b: Location, c: Location)
    requires Within(a, b) && Within(b, c)
    ensures Within(a, c)
  {
    assert c[..|a|] == c[..|b|][..|a|];
  }

  /** In a tree every location strictly above an existing one is a folder. */
  lemma {:induction false} AncestorIsDir(m: Entries, a: Location, k: Location)
    requires WellFormed(m) && k in m && Within(a, k) && a != k
    ensures a in m && m[a].Dir?
    decreases |k|
  {
    var p := Parent(k);
    assert p[..|a|] == a;
    if p != a {
      AncestorIsDir(m, a, p);
    }
  }

  /** `mkdirSync` on an existing folder of a tree succeeds. */
  lemma MakeDirsExisting(m: Entries, dir: Location)
    requires WellFormed(m) && dir in m && m[dir].Dir?
    ensures MakeDirs(m, dir).Some?
  {
    forall i | 0 <= i < |dir|
      ensures dir[..i] in m && m[dir[..i]].Dir?
    {
      AncestorIsDir(m, dir[..i], dir);
    }
    assert dir[..|dir|] == dir;
  }

  /** `existsSync(p)`: the location exists, except that a path ending in '/' does not reach
      a file (the system reports ENOTDIR). */
  function Exists(m: Entries, p: string): (b: bool)
    ensures b ==> Resolve(p) in m
    ensures Resolve(p) in m && m[Resolve(p)].Dir? ==> b
    ensures !EndsWithSlash(p) ==> (b <==> Resolve(p) in m)
    ensures EndsWithSlash(p) && Resolve(p) in m && m[Resolve(p)].File? ==> !b
  {
    Resolve(p) in m && !(EndsWithSlash(p) && m[Resolve(p)].File?)
  }

  /** `mkdirSync(dir, {recursive: true})`: every missing folder on the way is created;
      a file in the way makes the call throw. */
  function MakeDirs(m: Entries, dir: Location): (r: Option<Entries>) {
    if exists i :: 0 <= i <= |dir| && dir[..i] in m && m[dir[..i]].File? then None
    else Some(map k | k in m.Keys + Prefixes(dir) :: if k in m then m[k] else Dir)
  }

  /** What `copyFileSync(src, dst)` needs: a source file, a folder to put the copy in, and
      no folder at the destination itself. */
  predicate CanCopy(m: Entries, src: Location, dst: Location) {
    && src in m && m[src].File?
    && dst != [] && Parent(dst) in m && m[Parent(dst)].Dir?
    && !(dst in m && m[dst].Dir?)
  }

  /** `copyFileSync(src, dst)`: the destination gets the source's bytes and the timestamps
      `stamp` the system gives a freshly written file. */
  function Copy(m: Entries, src: Location, dst: Location, stamp: Times): (r: Option<Entries>) {
    if CanCopy(m, src, dst) then Some(m[dst := File(m[src].content, stamp)]) else None
  }

  /** `utimesSync(p, times)` of the `utimes` package on a file: it sets all three times,
      birth time included, as the package does on macOS and Windows (Linux cannot set a
      birth time). */
  function SetTimes(m: Entries, p: Location, t: Times): (r: Option<Entries>) {
    if p in m && m[p].File? then Some(m[p := File(m[p].content, t)]) else None
  }

  /** `unlinkSync(p)`: removes a file; a missing path or a folder makes it throw. */
  function Unlink(m: Entries, p: Location): (r: Option<Entries>) {
    if p in m && m[p].File? then Some(m - {p}) else None
  }

  // ---------------------------------------------------------------------
  // Every call keeps the tree a tree

  lemma MakeDirsWellFormed(m: Entries, dir: Location)
    requires WellFormed(m) && MakeDirs(m, dir).Some?
    ensures var m' := MakeDirs(m, dir).value;
      && WellFormed(m')
      && dir in m' && m'[dir].Dir?
      && (forall k :: k in m ==> k in m' && m'[k] == m[k])
      && (forall k :: k in m' && k !in m ==> k in Prefixes(dir) && m'[k].Dir?)
  {
    var m' := MakeDirs(m, dir).value;
    assert dir == dir[..|dir|];
    assert dir in Prefixes(dir);
    forall k | k in m' && k != [] ensures Parent(k) in m' && m'[Parent(k)].Dir? {
      if k !in m {
        var i :| 0 <= i <= |dir| && k == dir[..i];
        assert Parent(k) == dir[..i - 1];
        assert Parent(k) in Prefixes(dir);
      }
    }
  }

  lemma CopyWellFormed(m: Entries, src: Location, dst: Location, stamp: Times)
    requires WellFormed(m) && Copy(m, src, dst, stamp).Some?
    ensures WellFormed(Copy(m, src, dst, stamp).value)
  {
    var m' := Copy(m, src, dst, stamp).value;
    forall k | k in m' && k != [] ensures Parent(k) in m' && m'[Parent(k)].Dir? {
      if k != dst {
        assert Parent(k) != dst;
      }
    }
  }

  lemma SetTimesWellFormed(m: Entries, p: Location, t: Times)
    requires WellFormed(m) && SetTimes(m, p, t).Some?
    ensures WellFormed(SetTimes(m, p, t).value)
  {
    var m' := SetTimes(m, p, t).value;
    forall k | k in m' && k != [] ensures Parent(k) in m' && m'[Parent(k)].Dir? {
      assert Parent(k) != p;
    }
  }

  lemma UnlinkWellFormed(m: Entries, p: Location)
    requires WellFormed(m) && Unlink(m, p).Some?
    ensures WellFormed(Unlink(m, p).value)
  {
    var m' := Unlink(m, p).value;
    forall k | k in m' && k != [] ensures Parent(k) in m' && m'[Parent(k)].Dir? {
      assert Parent(k) != p;
    }
  }

  /** Removing an empty folder other than the root keeps the tree a tree. */
  lemma RemoveEmptyDirWellFormed(m: Entries, d: Location)
    requires WellFormed(m) && d != [] && d in m && m[d].Dir? && Children(m, d) == {}
    ensures WellFormed(m - {d})
  {
    forall k | k in m - {d} && k != [] ensures Parent(k) in m - {d} && (m - {d})[Parent(k)].Dir? {
      assert k !in Children(m, d);
    }
  }

  /** A set of names written out as a sequence without repetitions, in some order. */
  method Enumerate(names: set<string>) returns (s: seq<string>)
    ensures |s| == |names|
    ensures forall x :: x in s <==> x in names
    ensures forall i, j :: 0 <= i < j < |s| ==> s[i] != s[j]
  {
    s := [];
    var rest := names;
    while rest != {}
      invariant rest <= names
      invariant |s| + |rest| == |names|
      invariant forall x :: x in s <==> x in names && x !in rest
      invariant forall i, j :: 0 <= i < j < |s| ==> s[i] != s[j]
      decreases |rest|
    {
      var x :| x in rest;
      s := s + [x];
      rest := rest - {x};
    }
  }

  class FileSystem {
    var entries: Entries

    ghost predicate Valid()
      reads this
    {
      WellFormed(entries)
    }

    constructor (initial: Entries)
      requires WellFormed(initial)
      ensures Valid() && entries == initial
    {
      entries := initial;
    }

    /** `existsSync(p)`. */
    method ExistsSync(p: string) returns (b: bool)
      ensures b == Exists(entries, p)
    {
      b := Exists(entries, p);
    }

    /** `statSync(k).isDirectory()`; a missing path makes `statSync` throw, which the
        pruner never lets happen. */
    method IsDirectory(k: Location) returns (b: bool)
      requires k in entries
      ensures b <==> entries[k].Dir?
    {
      b := entries[k].Dir?;
    }

    /** `mkdirSync(dir, {recursive: true})`; `ok` is false when it throws. */
    method MkdirSync(dir: string, denied: bool) returns (ok: bool)
      requires Valid()
      modifies this
      ensures Valid()
      ensures ok <==> !denied && MakeDirs(old(entries), Resolve(dir)).Some?
      ensures entries == if ok then MakeDirs(old(entries), Resolve(dir)).value else old(entries)
    {
      var r := if denied then None else MakeDirs(entries, Resolve(dir));
      ok := r.Some?;
      if ok {
        MakeDirsWellFormed(entries, Resolve(dir));
        entries := r.value;
      }
    }

    /** `copyFileSync(src, dst)`; `ok` is false when it throws. */
    method CopyFileSync(src: string, dst: string, denied: bool, stamp: Times) returns (ok: bool)
      requires Valid()
      modifies this
      ensures Valid()
      ensures ok <==> !denied && CanCopy(old(entries), Resolve(src), Resolve(dst))
      ensures entries == if ok then Copy(old(entries), Resolve(src), Resolve(dst), stamp).value else old(entries)
    {
      var r := if denied then None else Copy(entries, Resolve(src), Resolve(dst), stamp);
      ok := r.Some?;
      if ok {
        CopyWellFormed(entries, Resolve(src), Resolve(dst), stamp);
        entries := r.value;
      }
    }

    /** `utimesSync(p, times)`; `ok` is false when it throws. */
    method UtimesSync(p: string, t: Times, denied: bool) returns (ok: bool)
      requires Valid()
      modifies this
      ensures Valid()
      ensures ok <==> !denied && SetTimes(old(entries), Resolve(p), t).Some?
      ensures entries == if ok then SetTimes(old(entries), Resolve(p), t).value else old(entries)
    {
      var r := if denied then None else SetTimes(entries, Resolve(p), t);
      ok := r.Some?;
      if ok {
        SetTimesWellFormed(entries, Resolve(p), t);
        entries := r.value;
      }
    }

    /** `unlinkSync(p)`; `ok` is false when it throws. */
    method UnlinkSync(p: string, denied: bool) returns (ok: bool)
      requires Valid()
      modifies this
      ensures Valid()
      ensures ok <==> !denied && Unlink(old(entries), Resolve(p)).Some?
      ensures entries == if ok then Unlink(old(entries), Resolve(p)).value else old(entries)
    {
      var r := if denied then None else Unlink(entries, Resolve(p));
      ok := r.Some?;
      if ok {
        UnlinkWellFormed(entries, Resolve(p));
        entries := r.value;
      }
    }

    /** `readdirSync(d)`: the names inside folder `d`, each once, in the system's order. */
    method ReaddirSync(d: Location) returns (names: seq<string>)
      requires d in entries && entries[d].Dir?
      ensures forall x :: x in names <==> x in ChildNames(entries, d)
      ensures forall i, j :: 0 <= i < j < |names| ==> names[i] != names[j]
    {
      names := Enumerate(ChildNames(entries, d));
    }

    /** `rmdirSync(d)` on an empty folder that is not the root. */
    method RmdirSync(d: Location)
      requires Valid() && d != [] && d in entries && entries[d].Dir?
      requires ChildNames(entries, d) == {}
      modifies this
      ensures Valid()
      ensures entries == old(entries) - {d}
    {
      ChildNamesEmpty(entries, d);
      RemoveEmptyDirWellFormed(entries, d);
      entries := entries - {d};
    }
  }
}
