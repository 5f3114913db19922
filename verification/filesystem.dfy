/**
 * The filesystem the loaders and the supervisor act on: a set of directories and
 * the text of every file, both keyed by path from the filesystem root. Each method
 * is one .NET filesystem call and reports, as `ok`, whether the call succeeds or
 * throws; a call that throws changes nothing.
 */
module FileSystems {

  import opened Options

  /** The names of the directories from the root down to an entry; `[]` is the root. */
  type Path = seq<string>

  /** `p` is `q` itself or one of its ancestors. */
  predicate IsPrefix(p: Path, q: Path)
  {
    |p| <= |q| && q[..|p|] == p
  }

  /** `q` lies strictly inside directory `p`. */
  predicate Below(p: Path, q: Path)
  {
    |p| < |q| && q[..|p|] == p
  }

  /** Neither path lies inside the other, so work under one leaves the other's subtree alone. */
  predicate Apart(p: Path, q: Path)
  {
    !IsPrefix(p, q) && !IsPrefix(q, p)
  }

  function Parent(p: Path): Path
    requires p != []
  {
    p[..|p| - 1]
  }

  /** `q` is the image, under `target`, of an entry of `entries` that lies under `source`. */
  predicate MirrorsIn(entries: set<Path>, source: Path, target: Path, q: Path)
  {
    Below(target, q) && source + q[|target|..] in entries
  }

  /** The root exists, no path is both a file and a directory, and every entry's parent is a directory. */
  ghost predicate WellFormed(dirs: set<Path>, files: set<Path>)
  {
    && [] in dirs
    && dirs !! files
    && (forall d :: d in dirs && d != [] ==> Parent(d) in dirs)
    && (forall f :: f in files ==> f != [] && Parent(f) in dirs)
  }

  /** Every ancestor of a directory is a directory. */
  lemma AncestorsAreDirectories(dirs: set<Path>, files: set<Path>, d: Path, i: nat)
    requires WellFormed(dirs, files) && d in dirs && i <= |d|
    ensures d[..i] in dirs
    decreases |d| - i
  {
    if i < |d| {
      assert Parent(d) in dirs;
      AncestorsAreDirectories(dirs, files, d[..|d| - 1], i);
      assert d[..|d| - 1][..i] == d[..i];
    } else {
      assert d[..i] == d;
    }
  }

  /** Every proper ancestor of a file is a directory. */
  lemma AncestorsOfFile(dirs: set<Path>, files: set<Path>, f: Path, i: nat)
    requires WellFormed(dirs, files) && f in files && i < |f|
    ensures f[..i] in dirs
  {
    AncestorsAreDirectories(dirs, files, Parent(f), i);
    assert Parent(f)[..i] == f[..i];
  }

  /** The names of the entries directly inside `p`. */
  function Children(entries: set<Path>, p: Path): (names: set<string>)
    ensures forall n :: n in names <==> p + [n] in entries
  {
    var names := set d | d in entries && |d| == |p| + 1 && d[..|p|] == p :: d[|p|];
    assert forall n :: p + [n] in entries ==> (p + [n])[|p|] == n && (p + [n])[..|p|] == p;
    assert forall d :: |d| == |p| + 1 && d[..|p|] == p ==> d == p + [d[|p|]];
    names
  }

  /** `p` and all its ancestors. */
  function Prefixes(p: Path): (r: set<Path>)
    ensures forall q :: q in r <==> IsPrefix(q, p)
  {
    var r := set i | 0 <= i <= |p| :: p[..i];
    assert forall q :: IsPrefix(q, p) ==> q == p[..|q|];
    r
  }

  /** Two ancestors of one path are ancestors one of the other. */
  lemma PrefixesOfOnePath(a: Path, b: Path, q: Path)
    requires IsPrefix(a, q) && IsPrefix(b, q)
    ensures IsPrefix(a, b) || IsPrefix(b, a)
  {
    if |a| <= |b| {
      assert b[..|a|] == q[..|a|];
    } else {
      assert a[..|b|] == q[..|b|];
    }
  }

  /** What lies under `source` and what lies under `target` never overlap when the two are apart. */
  lemma ApartSubtrees(source: Path, target: Path, q: Path)
    requires Apart(source, target)
    ensures !(IsPrefix(source, q) && IsPrefix(target, q))
    ensures IsPrefix(q, target) ==> !IsPrefix(source, q)
  {
    if IsPrefix(source, q) && IsPrefix(target, q) {
      PrefixesOfOnePath(source, target, q);
    }
  }

  class FileSystem {
    var dirs: set<Path>
    var files: map<Path, string>

    /** The root exists, no path is both a file and a directory, and every entry's parent is a directory. */
    ghost predicate Valid()
      reads this
    {
      WellFormed(dirs, files.Keys)
    }

    constructor (dirs: set<Path>, files: map<Path, string>)
      ensures this.dirs == dirs + {[]} && this.files == files
    {
      this.dirs := dirs + {[]};
      this.files := files;
    }

    /** `Path.Exists`: a file or a directory is there. */
    predicate Exists(p: Path)
      reads this
    {
      p in dirs || p in files
    }

    /** Nothing lies under a path that does not exist. */
    lemma NothingBelowMissing(p: Path, q: Path)
      requires Valid() && !Exists(p) && Below(p, q)
      ensures !Exists(q)
    {
      if q in dirs {
        AncestorsAreDirectories(dirs, files.Keys, q, |p|);
      } else if q in files {
        AncestorsOfFile(dirs, files.Keys, q, |p|);
      }
    }

    /** The names of the sub-directories of `p` (`DirectoryInfo.GetDirectories`). */
    function ChildDirectories(p: Path): (names: set<string>)
      reads this
      ensures forall n :: n in names <==> p + [n] in dirs
    {
      Children(dirs, p)
    }

    /** The names of the files directly in `p` (`DirectoryInfo.GetFiles`). */
    function ChildFiles(p: Path): (names: set<string>)
      reads this
      ensures forall n :: n in names <==> p + [n] in files
    {
      Children(files.Keys, p)
    }

    /**
     * `Directory.CreateDirectory`: creates `p` and every missing ancestor; it throws when
     * `p` or one of its ancestors is a file.
     */
    method CreateDirectory(p: Path) returns (ok: bool)
      requires Valid()
      modifies this
      ensures Valid()
      ensures ok <==> forall i :: 0 <= i <= |p| ==> p[..i] !in old(files)
      ensures files == old(files)
      ensures dirs == if ok then old(dirs) + Prefixes(p) else old(dirs)
    {
      ok := forall i | 0 <= i <= |p| :: p[..i] !in files;
      if ok {
        dirs := dirs + Prefixes(p);
        forall q | q in dirs && q != [] ensures Parent(q) in dirs {
          if IsPrefix(q, p) {
            assert IsPrefix(Parent(q), p);
          }
        }
      }
    }

    /**
     * `File.Create` / `new StreamWriter(p)`: creates `p`, or truncates it if it is already a
     * file; it throws when the parent directory is missing or `p` is a directory.
     */
    method CreateFile(p: Path) returns (ok: bool)
      requires Valid()
      modifies this
      ensures Valid()
      ensures ok <==> p != [] && Parent(p) in old(dirs) && p !in old(dirs)
      ensures dirs == old(dirs)
      ensures files == if ok then old(files)[p := ""] else old(files)
    {
      ok := p != [] && Parent(p) in dirs && p !in dirs;
      if ok {
        files := files[p := ""];
      }
    }

    /** `File.WriteAllText`: creates or truncates the file `p` and writes `s`; throws when the parent directory is missing or `p` is a directory. */
    method WriteAllText(p: Path, s: string) returns (ok: bool)
      requires Valid()
      modifies this
      ensures Valid()
      ensures ok <==> p != [] && Parent(p) in old(dirs) && p !in old(dirs)
      ensures dirs == old(dirs)
      ensures files == if ok then old(files)[p := s] else old(files)
    {
      ok := p != [] && Parent(p) in dirs && p !in dirs;
      if ok {
        files := files[p := s];
      }
    }

    /** One `StreamWriter.Write`: appends `s` to the file `p`. */
    method AppendText(p: Path, s: string)
      requires Valid() && p in files
      modifies this
      ensures Valid()
      ensures dirs == old(dirs)
      ensures files == old(files)[p := old(files)[p] + s]
    {
      files := files[p := files[p] + s];
    }

    /** `FileInfo.CopyTo(dst)` without overwrite: throws when `dst` exists or its parent directory does not. */
    method CopyFile(src: Path, dst: Path) returns (ok: bool)
      requires Valid() && src in files
      modifies this
      ensures Valid()
      ensures ok <==> dst != [] && Parent(dst) in old(dirs) && !old(Exists(dst))
      ensures dirs == old(dirs)
      ensures files == if ok then old(files)[dst := old(files)[src]] else old(files)
    {
      ok := dst != [] && Parent(dst) in dirs && !Exists(dst);
      if ok {
        files := files[dst := files[src]];
      }
    }

    /** `File.ReadAllText`: the text of `p`, or `None` when `p` is not a file (the call throws). */
    function ReadAllText(p: Path): (r: Option<string>)
      reads this
      ensures r.Some? <==> p in files
      ensures r.Some? ==> r.value == files[p]
    {
      if p in files then Some(files[p]) else None
    }

    /** `File.Delete`: removes the file `p`; a missing file is not an error, a directory is. */
    method DeleteFile(p: Path) returns (ok: bool)
      requires Valid()
      modifies this
      ensures Valid()
      ensures ok <==> p !in old(dirs)
      ensures dirs == old(dirs)
      ensures files == if ok then old(files) - {p} else old(files)
    {
      ok := p !in dirs;
      if ok {
        files := files - {p};
      }
    }

    /** `Directory.Delete(p, true)`: removes the directory `p` with everything under it; throws when `p` is not a directory. */
    method DeleteTree(p: Path) returns (ok: bool)
      requires Valid() && p != []
      modifies this
      ensures Valid()
      ensures ok <==> p in old(dirs)
      ensures dirs == if ok then Pruned(old(dirs), p) else old(dirs)
      ensures files == if ok then PrunedMap(old(files), p) else old(files)
    {
      ok := p in dirs;
      if ok {
        dirs := Pruned(dirs, p);
        files := PrunedMap(files, p);
        forall q | q in dirs && q != [] ensures Parent(q) in dirs {
          assert IsPrefix(p, Parent(q)) ==> IsPrefix(p, q);
        }
        forall q | q in files ensures Parent(q) in dirs {
          assert IsPrefix(p, Parent(q)) ==> IsPrefix(p, q);
        }
      }
    }

    /**
     * `Directory.Move(src, dst)`: renames the directory or file `src`, with everything under
     * it, to `dst`; throws when `src` does not exist, `dst` exists, the parent of `dst` is
     * missing or `dst` lies inside `src`.
     */
    method MoveTree(src: Path, dst: Path) returns (ok: bool)
      requires Valid()
      modifies this
      ensures Valid()
      ensures ok <==> CanMove(old(dirs), old(files).Keys, src, dst)
      ensures dirs == if ok then MovedSet(old(dirs), src, dst) else old(dirs)
      ensures files == if ok then MovedMap(old(files), src, dst) else old(files)
    {
      ok := CanMove(dirs, files.Keys, src, dst);
      if ok {
        forall q | IsPrefix(dst, q) ensures q !in dirs && q !in files {
          if q != dst {
            NothingBelowMissing(dst, q);
          }
        }
        var d0, f0 := dirs, files;
        dirs := MovedSet(d0, src, dst);
        files := MovedMap(f0, src, dst);
        MoveKeepsWellFormed(d0, f0.Keys, src, dst);
      }
    }
  }

  /** Renaming a directory or file keeps the tree well formed. */
  lemma MoveKeepsWellFormed(d0: set<Path>, f0: set<Path>, src: Path, dst: Path)
    requires WellFormed(d0, f0) && CanMove(d0, f0, src, dst)
    requires forall q :: Below(dst, q) ==> q !in d0 && q !in f0
    ensures WellFormed(MovedSet(d0, src, dst), MovedSet(f0, src, dst))
  {
    assert !IsPrefix(src, []);
    MovedDirsClosed(d0, f0, src, dst);
    MovedFilesPlaced(d0, f0, src, dst);
    MovedApart(d0, f0, src, dst);
  }

  lemma MovedDirsClosed(d0: set<Path>, f0: set<Path>, src: Path, dst: Path)
    requires WellFormed(d0, f0) && CanMove(d0, f0, src, dst)
    ensures forall q :: q in MovedSet(d0, src, dst) && q != [] ==> Parent(q) in MovedSet(d0, src, dst)
  {
    forall q | Moved(d0, src, dst, q) && q != [] ensures Moved(d0, src, dst, Parent(q)) {
      if IsPrefix(dst, q) && src + q[|dst|..] in d0 {
        if q != dst {
          var o := src + q[|dst|..];
          assert Parent(o) == src + Parent(q)[|dst|..];
        } else {
          assert !IsPrefix(src, Parent(q));
        }
      } else {
        assert IsPrefix(src, Parent(q)) ==> IsPrefix(src, q);
      }
    }
  }

  lemma MovedFilesPlaced(d0: set<Path>, f0: set<Path>, src: Path, dst: Path)
    requires WellFormed(d0, f0) && CanMove(d0, f0, src, dst)
    ensures forall q :: q in MovedSet(f0, src, dst) ==> q != [] && Parent(q) in MovedSet(d0, src, dst)
  {
    forall q | Moved(f0, src, dst, q) ensures q != [] && Moved(d0, src, dst, Parent(q)) {
      if IsPrefix(dst, q) && src + q[|dst|..] in f0 {
        var o := src + q[|dst|..];
        if q != dst {
          assert Parent(o) == src + Parent(q)[|dst|..];
        }
      } else {
        assert IsPrefix(src, Parent(q)) ==> IsPrefix(src, q);
      }
    }
  }

  lemma MovedApart(d0: set<Path>, f0: set<Path>, src: Path, dst: Path)
    requires WellFormed(d0, f0) && CanMove(d0, f0, src, dst)
    requires forall q :: Below(dst, q) ==> q !in d0 && q !in f0
    ensures MovedSet(d0, src, dst) !! MovedSet(f0, src, dst)
  {
    forall q | Moved(d0, src, dst, q) ensures !Moved(f0, src, dst, q) {
      if IsPrefix(dst, q) && q == dst {
        assert src + q[|dst|..] == src;
      }
    }
  }

  /** The entries strictly inside `p`: what `Directory.EnumerateFiles(p, "*.*", SearchOption.AllDirectories)` lists of the files. */
  function EntriesUnder(entries: set<Path>, p: Path): (r: set<Path>)
    ensures forall q :: q in r <==> q in entries && Below(p, q)
  {
    set q | q in entries && Below(p, q)
  }

  /** The entries outside `p`: what `Directory.Delete(p, true)` leaves. */
  function Pruned(entries: set<Path>, p: Path): (r: set<Path>)
    ensures forall q :: q in r <==> q in entries && !IsPrefix(p, q)
  {
    set q | q in entries && !IsPrefix(p, q)
  }

  function PrunedMap(files: map<Path, string>, p: Path): (r: map<Path, string>)
    ensures r.Keys == Pruned(files.Keys, p)
    ensures forall q :: q in r ==> r[q] == files[q]
  {
    map q | q in files && !IsPrefix(p, q) :: files[q]
  }

  /** `Directory.Move(src, dst)` succeeds: `src` exists (a file is renamed too), `dst` does not, its parent does, and it is not inside `src`. */
  predicate CanMove(dirs: set<Path>, files: set<Path>, src: Path, dst: Path)
  {
    && src != [] && dst != [] && (src in dirs || src in files)
    && dst !in dirs && dst !in files && Parent(dst) in dirs && !IsPrefix(src, dst)
  }

  /** After renaming `src` to `dst`, `q` is an entry: either untouched outside `src` or the image of one inside it. */
  predicate Moved(entries: set<Path>, src: Path, dst: Path, q: Path)
  {
    (q in entries && !IsPrefix(src, q)) || (IsPrefix(dst, q) && src + q[|dst|..] in entries)
  }

  /** The entries after renaming `src` to `dst`, given that nothing lies at or under `dst`. */
  function MovedSet(entries: set<Path>, src: Path, dst: Path): (r: set<Path>)
    ensures forall q :: q in r <==> Moved(entries, src, dst, q)
  {
    var moved := set q | q in entries && IsPrefix(src, q) :: dst + q[|src|..];
    MovedImages(entries, src, dst, moved);
    (set q | q in entries && !IsPrefix(src, q)) + moved
  }

  /** The files after renaming `src` to `dst`, each keeping its text. */
  function MovedMap(files: map<Path, string>, src: Path, dst: Path): (r: map<Path, string>)
    ensures r.Keys == MovedSet(files.Keys, src, dst)
    ensures forall q :: IsPrefix(dst, q) && src + q[|dst|..] in files ==> r[q] == files[src + q[|dst|..]]
    ensures forall q :: q in files && !IsPrefix(src, q) && !IsPrefix(dst, q) ==> r[q] == files[q]
  {
    map q | q in MovedSet(files.Keys, src, dst) ::
      if IsPrefix(dst, q) && src + q[|dst|..] in files then files[src + q[|dst|..]] else files[q]
  }

  lemma MovedImages(entries: set<Path>, src: Path, dst: Path, moved: set<Path>)
    requires moved == set q | q in entries && IsPrefix(src, q) :: dst + q[|src|..]
    ensures forall q :: q in moved <==> IsPrefix(dst, q) && src + q[|dst|..] in entries
  {
    forall q | IsPrefix(dst, q) && src + q[|dst|..] in entries ensures q in moved {
      var o := src + q[|dst|..];
      assert q == dst + o[|src|..];
    }
    forall q | q in moved ensures IsPrefix(dst, q) && src + q[|dst|..] in entries {
      var o :| o in entries && IsPrefix(src, o) && q == dst + o[|src|..];
      assert q[|dst|..] == o[|src|..];
      assert src + o[|src|..] == o;
    }
  }
}
