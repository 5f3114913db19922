/**
 * What the two `CopyFilesRecursively` walks do to the filesystem: every directory and
 * file under `source` gets an image at the same relative path under `target`, a file's
 * image holding its text carried over verbatim or with its placeholders expanded.
 * `MirrorDirs` and `MirrorFiles` are the filesystem after a completed walk, as functions
 * of the one before; `WalkedDirs` and `WalkedFiles` are the filesystem part way through,
 * once the walk has reached the sub-directories `via` and the files `copied` directly in
 * `source`. The lemmas are the steps the walks are proved with.
 */
module Mirroring {

  import opened FileSystems
  import Placeholders

  /** How a file's text reaches its image: `FileInfo.CopyTo`, or `TemplateLoader.CopyFile`. */
  datatype Copying = Verbatim | Expanding(settings: Placeholders.Settings)

  function Carry(c: Copying, text: string): string
  {
    match c
    case Verbatim => text
    case Expanding(s) => Placeholders.ExpandText(s, text)
  }

  // ---------------------------------------------------------------- completed walk

  /** The images under `target` of all the entries under `source`. */
  function AllImages(entries: set<Path>, source: Path, target: Path): (r: set<Path>)
    ensures forall q :: q in r <==> MirrorsIn(entries, source, target, q)
  {
    var r := set o | o in entries && Below(source, o) :: target + o[|source|..];
    forall q | MirrorsIn(entries, source, target, q) ensures q in r {
      var o := source + q[|target|..];
      assert q == target + o[|source|..];
    }
    forall q | q in r ensures MirrorsIn(entries, source, target, q) {
      var o :| o in entries && Below(source, o) && q == target + o[|source|..];
      assert q[|target|..] == o[|source|..];
      assert source + o[|source|..] == o;
    }
    r
  }

  /**
   * The directories after a completed walk: the old ones, the images of those under
   * `source`, and, when `source` has a sub-directory (whose `CreateSubdirectory` creates
   * them), `target` and its ancestors.
   */
  function MirrorDirs(d0: set<Path>, source: Path, target: Path): set<Path>
  {
    d0 + AllImages(d0, source, target) + (if Children(d0, source) != {} then Prefixes(target) else {})
  }

  /** The files after a completed walk: each image holds its original's text carried over by `c`; every other file keeps its text. */
  function MirrorFiles(f0: map<Path, string>, source: Path, target: Path, c: Copying): map<Path, string>
  {
    var images := AllImages(f0.Keys, source, target);
    map q | q in f0.Keys + images ::
      if q in images then Carry(c, f0[source + q[|target|..]]) else f0[q]
  }

  /** The completed walk, entry by entry. */
  lemma MirrorContents(d0: set<Path>, f0: map<Path, string>, source: Path, target: Path, c: Copying)
    ensures forall q :: q in MirrorDirs(d0, source, target) <==>
              q in d0 || MirrorsIn(d0, source, target, q) || (Children(d0, source) != {} && IsPrefix(q, target))
    ensures forall q :: q in MirrorFiles(f0, source, target, c) <==> q in f0 || MirrorsIn(f0.Keys, source, target, q)
    ensures forall q :: MirrorsIn(f0.Keys, source, target, q) ==>
              MirrorFiles(f0, source, target, c)[q] == Carry(c, f0[source + q[|target|..]])
    ensures forall q :: q in f0 && !Below(target, q) ==> MirrorFiles(f0, source, target, c)[q] == f0[q]
  {
  }

  // ---------------------------------------------------------------- walk in progress

  /** `q` lies under `base` and the walk has reached it: a direct child among `copied`, or an entry under a sub-directory among `via`. */
  predicate Reached(base: Path, q: Path, via: set<string>, copied: set<string>)
  {
    Below(base, q) && if |q| == |base| + 1 then q[|base|] in copied else q[|base|] in via
  }

  /** The images under `target` of the entries under `source` the walk has reached. */
  function Images(entries: set<Path>, source: Path, target: Path, via: set<string>, copied: set<string>): (r: set<Path>)
    ensures forall q :: q in r <==> Reached(target, q, via, copied) && source + q[|target|..] in entries
  {
    var r := set o | o in entries && Reached(source, o, via, copied) :: target + o[|source|..];
    forall q | Reached(target, q, via, copied) && source + q[|target|..] in entries ensures q in r {
      var o := source + q[|target|..];
      assert o[|source|..] == q[|target|..];
      assert q == target + o[|source|..];
    }
    forall q | q in r ensures Reached(target, q, via, copied) && source + q[|target|..] in entries {
      var o :| o in entries && Reached(source, o, via, copied) && q == target + o[|source|..];
      assert q[|target|..] == o[|source|..];
      assert source + o[|source|..] == o;
    }
    r
  }

  /** The directories once the sub-directories `via` are walked; `grown` once `target` has been created. */
  function WalkedDirs(d0: set<Path>, source: Path, target: Path, via: set<string>, grown: bool): set<Path>
  {
    d0 + Images(d0, source, target, via, via) + (if grown then Prefixes(target) else {})
  }

  /** The files once the sub-directories `via` are walked and the files `copied` directly in `source` are copied. */
  function WalkedFiles(f0: map<Path, string>, source: Path, target: Path, via: set<string>, copied: set<string>,
                       c: Copying): map<Path, string>
  {
    var images := Images(f0.Keys, source, target, via, copied);
    map q | q in f0.Keys + images ::
      if q in images then Carry(c, f0[source + q[|target|..]]) else f0[q]
  }

  /**
   * A walk that copies into `target` removes nothing, and changes nothing outside the
   * subtree of `target` except that it may create `target` and its missing ancestors.
   */
  ghost predicate StaysInside(d0: set<Path>, f0: map<Path, string>, d1: set<Path>, f1: map<Path, string>, target: Path)
  {
    && d0 <= d1
    && (forall q :: q in d1 && q !in d0 ==> IsPrefix(q, target) || Below(target, q))
    && (forall q :: !Below(target, q) ==> (q in f1 <==> q in f0))
    && (forall q :: q in f0 && !Below(target, q) ==> q in f1 && f1[q] == f0[q])
  }

  /** No ancestor of `target` is a file and nothing lies under it: the state right after the old presets are set aside. */
  ghost predicate Clear(d: set<Path>, f: set<Path>, target: Path)
  {
    && (forall i :: 0 <= i <= |target| ==> target[..i] !in f)
    && (forall q :: Below(target, q) ==> q !in d && q !in f)
  }

  // ---------------------------------------------------------------- paths

  lemma PrefixOfChildren(a: Path, b: Path, n: string)
    ensures IsPrefix(a + [n], b + [n]) ==> IsPrefix(a, b)
  {
    if IsPrefix(a + [n], b + [n]) {
      assert (b + [n])[..|a|] == b[..|a|];
      assert (a + [n])[..|a|] == a;
    }
  }

  lemma ChildrenApart(source: Path, target: Path, n: string)
    requires Apart(source, target)
    ensures Apart(source + [n], target + [n])
  {
    PrefixOfChildren(source, target, n);
    PrefixOfChildren(target, source, n);
  }

  /** Under `target + [n]`, the original under `source + [n]` is the original under `source`. */
  lemma ChildOrigin(source: Path, target: Path, n: string, q: Path)
    requires IsPrefix(target + [n], q)
    ensures Below(target, q) && q[|target|] == n
    ensures source + [n] + q[|target| + 1..] == source + q[|target|..]
  {
    assert q[..|target|] == (target + [n])[..|target|];
    assert q[|target|] == (target + [n])[|target|];
    assert q[|target|..] == [n] + q[|target| + 1..];
  }

  lemma IntoChild(target: Path, q: Path)
    requires Below(target, q)
    ensures IsPrefix(target + [q[|target|]], q)
  {
    assert q[..|target| + 1] == q[..|target|] + [q[|target|]];
  }

  /** Only the ancestors of `target + [n]` other than itself are ancestors of `target`. */
  lemma AncestorOfChild(target: Path, n: string, q: Path)
    requires IsPrefix(q, target + [n])
    ensures IsPrefix(q, target) || q == target + [n]
  {
    if |q| <= |target| {
      assert (target + [n])[..|q|] == target[..|q|];
    }
  }

  // ---------------------------------------------------------------- frames

  /** A walk into `target` leaves the subtree of `source` alone when the two are apart. */
  lemma WalkLeavesSource(d0: set<Path>, f0: map<Path, string>, source: Path, target: Path,
                         via: set<string>, copied: set<string>, grown: bool, c: Copying, o: Path)
    requires Apart(source, target) && IsPrefix(source, o)
    ensures o in WalkedDirs(d0, source, target, via, grown) <==> o in d0
    ensures o in WalkedFiles(f0, source, target, via, copied, c) <==> o in f0
    ensures o in f0 ==> WalkedFiles(f0, source, target, via, copied, c)[o] == f0[o]
  {
    ApartSubtrees(source, target, o);
  }

  /** The files directly in `source` are the same once its sub-directories are walked. */
  lemma WalkKeepsTopFiles(f0: map<Path, string>, source: Path, target: Path, via: set<string>, c: Copying)
    requires Apart(source, target)
    ensures Children(WalkedFiles(f0, source, target, via, {}, c).Keys, source) == Children(f0.Keys, source)
  {
    forall m ensures source + [m] in WalkedFiles(f0, source, target, via, {}, c) <==> source + [m] in f0 {
      WalkLeavesSource({}, f0, source, target, via, {}, false, c, source + [m]);
    }
  }

  /** Part of a walk stays inside `target`. */
  lemma WalkedStaysInside(d0: set<Path>, f0: map<Path, string>, source: Path, target: Path,
                          via: set<string>, copied: set<string>, grown: bool, c: Copying)
    ensures StaysInside(d0, f0, WalkedDirs(d0, source, target, via, grown),
                        WalkedFiles(f0, source, target, via, copied, c), target)
  {
  }

  lemma StaysInsideTrans(d0: set<Path>, f0: map<Path, string>, d1: set<Path>, f1: map<Path, string>,
                         d2: set<Path>, f2: map<Path, string>, target: Path)
    requires StaysInside(d0, f0, d1, f1, target) && StaysInside(d1, f1, d2, f2, target)
    ensures StaysInside(d0, f0, d2, f2, target)
  {
  }

  /** What stays inside a sub-directory of `target` stays inside `target`. */
  lemma StaysInsideParent(d0: set<Path>, f0: map<Path, string>, d1: set<Path>, f1: map<Path, string>,
                          target: Path, n: string)
    requires StaysInside(d0, f0, d1, f1, target + [n])
    ensures StaysInside(d0, f0, d1, f1, target)
  {
    forall q | q in d1 && q !in d0 ensures IsPrefix(q, target) || Below(target, q) {
      if IsPrefix(q, target + [n]) {
        AncestorOfChild(target, n, q);
      } else {
        assert IsPrefix(target + [n], q);
        ChildOrigin(target, target, n, q);
      }
    }
    forall q | !Below(target, q) ensures !Below(target + [n], q) {
      if Below(target + [n], q) {
        ChildOrigin(target, target, n, q);
      }
    }
  }

  /** A walk into the sub-directory `n`, started after the sub-directories `done`, stays inside `target` however far it got. */
  lemma ChildWalkStaysInside(d0: set<Path>, f0: map<Path, string>, source: Path, target: Path,
                             done: set<string>, n: string, c: Copying, d2: set<Path>, f2: map<Path, string>)
    requires StaysInside(WalkedDirs(d0, source, target, done, done != {}) + Prefixes(target + [n]),
                         WalkedFiles(f0, source, target, done, {}, c), d2, f2, target + [n])
    ensures StaysInside(d0, f0, d2, f2, target)
  {
    var d := WalkedDirs(d0, source, target, done, done != {});
    var f := WalkedFiles(f0, source, target, done, {}, c);
    WalkedStaysInside(d0, f0, source, target, done, {}, done != {}, c);
    assert StaysInside(d, f, d + Prefixes(target + [n]), f, target + [n]);
    StaysInsideTrans(d, f, d + Prefixes(target + [n]), f, d2, f2, target + [n]);
    StaysInsideParent(d, f, d2, f2, target, n);
    StaysInsideTrans(d0, f0, d, f, d2, f2, target);
  }

  // ---------------------------------------------------------------- steps

  lemma WalkStart(d0: set<Path>, f0: map<Path, string>, source: Path, target: Path, c: Copying)
    ensures WalkedDirs(d0, source, target, {}, false) == d0
    ensures WalkedFiles(f0, source, target, {}, {}, c) == f0
  {
    assert Images(d0, source, target, {}, {}) == {};
    assert Images(f0.Keys, source, target, {}, {}) == {};
  }

  /** Creating the sub-directory `n` under `target` and walking into it adds the directories reached through `n`. */
  lemma DirStep(d0: set<Path>, source: Path, target: Path, done: set<string>, n: string)
    requires Apart(source, target) && source + [n] in d0
    ensures MirrorDirs(WalkedDirs(d0, source, target, done, done != {}) + Prefixes(target + [n]), source + [n], target + [n])
            == WalkedDirs(d0, source, target, done + {n}, true)
  {
    var d1 := WalkedDirs(d0, source, target, done, done != {}) + Prefixes(target + [n]);
    var lhs := MirrorDirs(d1, source + [n], target + [n]);
    var rhs := WalkedDirs(d0, source, target, done + {n}, true);
    ChildrenApart(source, target, n);
    forall q ensures q in lhs <==> q in rhs {
      if IsPrefix(target + [n], q) {
        ChildOrigin(source, target, n, q);
        var o := source + q[|target|..];
        ApartSubtrees(source + [n], target + [n], o);
        WalkLeavesSource(d0, map[], source, target, done, {}, done != {}, Verbatim, o);
        assert o in d1 <==> o in d0;
      }
      if IsPrefix(q, target + [n]) {
        AncestorOfChild(target, n, q);
        if q == target + [n] {
          ChildOrigin(source, target, n, q);
          assert q[|target|..] == [n];
        }
      }
      if Reached(target, q, {n}, {n}) {
        IntoChild(target, q);
      }
      if IsPrefix(q, target) {
        assert IsPrefix(q, target + [n]);
      }
    }
  }

  /** Walking into the sub-directory `n` adds the images of the files reached through `n`. */
  lemma FileStep(f0: map<Path, string>, source: Path, target: Path, done: set<string>, n: string, c: Copying)
    requires Apart(source, target)
    ensures MirrorFiles(WalkedFiles(f0, source, target, done, {}, c), source + [n], target + [n], c)
            == WalkedFiles(f0, source, target, done + {n}, {}, c)
  {
    var f1 := WalkedFiles(f0, source, target, done, {}, c);
    var lhs := MirrorFiles(f1, source + [n], target + [n], c);
    var rhs := WalkedFiles(f0, source, target, done + {n}, {}, c);
    forall q ensures (q in lhs <==> q in rhs) && (q in lhs ==> lhs[q] == rhs[q]) {
      if IsPrefix(target + [n], q) {
        ChildOrigin(source, target, n, q);
        WalkLeavesSource({}, f0, source, target, done, {}, false, c, source + q[|target|..]);
      }
      if Reached(target, q, {n}, {}) {
        IntoChild(target, q);
      }
    }
  }

  /** Copying the file `m` directly in `source` adds its image. */
  lemma TopFileStep(f0: map<Path, string>, source: Path, target: Path, via: set<string>, copied: set<string>,
                    m: string, c: Copying)
    requires Apart(source, target) && source + [m] in f0
    ensures source + [m] in WalkedFiles(f0, source, target, via, copied, c)
    ensures WalkedFiles(f0, source, target, via, copied, c)[source + [m]] == f0[source + [m]]
    ensures WalkedFiles(f0, source, target, via, copied, c)[target + [m] := Carry(c, f0[source + [m]])]
            == WalkedFiles(f0, source, target, via, copied + {m}, c)
  {
    WalkLeavesSource({}, f0, source, target, via, copied, false, c, source + [m]);
    var lhs := WalkedFiles(f0, source, target, via, copied, c)[target + [m] := Carry(c, f0[source + [m]])];
    var rhs := WalkedFiles(f0, source, target, via, copied + {m}, c);
    forall q ensures (q in lhs <==> q in rhs) && (q in lhs ==> lhs[q] == rhs[q]) {
      TopFileStepAt(f0, source, target, via, copied, m, c, q);
    }
  }

  /** ... entry by entry. */
  lemma TopFileStepAt(f0: map<Path, string>, source: Path, target: Path, via: set<string>, copied: set<string>,
                      m: string, c: Copying, q: Path)
    requires Apart(source, target) && source + [m] in f0
    requires source + [m] in WalkedFiles(f0, source, target, via, copied, c)
    ensures var lhs := WalkedFiles(f0, source, target, via, copied, c)[target + [m] := Carry(c, f0[source + [m]])];
      var rhs := WalkedFiles(f0, source, target, via, copied + {m}, c);
      (q in lhs <==> q in rhs) && (q in lhs ==> lhs[q] == rhs[q])
  {
    ImagesStep(f0.Keys, source, target, via, copied, m);
    assert (target + [m])[|target|..] == [m];
  }

  /** Copying the file `m` directly in `source` adds exactly the image `target/m`. */
  lemma ImagesStep(entries: set<Path>, source: Path, target: Path, via: set<string>, copied: set<string>, m: string)
    requires source + [m] in entries
    ensures Images(entries, source, target, via, copied + {m}) == Images(entries, source, target, via, copied) + {target + [m]}
  {
    var t := target + [m];
    assert t[|target|..] == [m] && t[..|target|] == target && t[|target|] == m;
    forall q | q in Images(entries, source, target, via, copied + {m}) && q != t
      ensures q in Images(entries, source, target, via, copied)
    {
      assert |q| == |target| + 1 ==> q == q[..|target|] + [q[|target|]];
    }
  }

  /** The image of a file directly in `source` is untouched until the walk copies that file. */
  lemma TopImageUntouched(f0: map<Path, string>, source: Path, target: Path, via: set<string>, copied: set<string>,
                          m: string, c: Copying)
    requires m !in copied
    ensures target + [m] in WalkedFiles(f0, source, target, via, copied, c) <==> target + [m] in f0
  {
    assert (target + [m])[|target|] == m;
  }

  /** The sub-directories walked, and then the files directly in `source` copied, make one walk. */
  lemma WalkedThenTop(f0: map<Path, string>, source: Path, target: Path, via: set<string>, copied: set<string>,
                      c: Copying)
    requires Apart(source, target)
    ensures WalkedFiles(WalkedFiles(f0, source, target, via, {}, c), source, target, {}, copied, c)
            == WalkedFiles(f0, source, target, via, copied, c)
  {
    var f1 := WalkedFiles(f0, source, target, via, {}, c);
    var lhs := WalkedFiles(f1, source, target, {}, copied, c);
    var rhs := WalkedFiles(f0, source, target, via, copied, c);
    forall q ensures (q in lhs <==> q in rhs) && (q in lhs ==> lhs[q] == rhs[q]) {
      if Below(target, q) {
        WalkLeavesSource({}, f0, source, target, via, {}, false, c, source + q[|target|..]);
      }
    }
  }

  /** With every sub-directory walked and every file directly in `source` copied, the walk is complete. */
  lemma WalkComplete(d0: set<Path>, f0: map<Path, string>, source: Path, target: Path, c: Copying)
    requires WellFormed(d0, f0.Keys)
    ensures WalkedDirs(d0, source, target, Children(d0, source), Children(d0, source) != {})
            == MirrorDirs(d0, source, target)
    ensures WalkedFiles(f0, source, target, Children(d0, source), Children(f0.Keys, source), c)
            == MirrorFiles(f0, source, target, c)
  {
    var via, copied := Children(d0, source), Children(f0.Keys, source);
    forall q | MirrorsIn(d0, source, target, q) ensures Reached(target, q, via, via) {
      var o := source + q[|target|..];
      AncestorsAreDirectories(d0, f0.Keys, o, |source| + 1);
      assert o[..|source| + 1] == source + [q[|target|]];
    }
    assert Images(d0, source, target, via, via) == AllImages(d0, source, target);
    forall q | MirrorsIn(f0.Keys, source, target, q) ensures Reached(target, q, via, copied) {
      var o := source + q[|target|..];
      if |q| == |target| + 1 {
        assert o == source + [q[|target|]];
      } else {
        AncestorsOfFile(d0, f0.Keys, o, |source| + 1);
        assert o[..|source| + 1] == source + [q[|target|]];
      }
    }
    assert Images(f0.Keys, source, target, via, copied) == AllImages(f0.Keys, source, target);
  }

  // ---------------------------------------------------------------- clear targets

  /**
   * Into a clear `target`, nothing the walk has made so far lies at or under a
   * sub-directory `n` not yet walked, and no ancestor of it is a file.
   */
  lemma ClearChild(d0: set<Path>, f0: map<Path, string>, source: Path, target: Path,
                   done: set<string>, n: string, c: Copying)
    requires Clear(d0, f0.Keys, target) && n !in done
    ensures forall i :: 0 <= i <= |target + [n]| ==>
              (target + [n])[..i] !in WalkedFiles(f0, source, target, done, {}, c)
    ensures forall q :: IsPrefix(target + [n], q) ==>
              q !in WalkedDirs(d0, source, target, done, done != {}) && q !in WalkedFiles(f0, source, target, done, {}, c)
  {
    forall i | 0 <= i <= |target + [n]| ensures (target + [n])[..i] !in WalkedFiles(f0, source, target, done, {}, c) {
      if i <= |target| {
        assert (target + [n])[..i] == target[..i];
        assert !Below(target, target[..i]);
      } else {
        assert (target + [n])[..i] == target + [n];
        ChildOrigin(target, target, n, target + [n]);
      }
    }
    forall q | IsPrefix(target + [n], q)
      ensures q !in WalkedDirs(d0, source, target, done, done != {}) && q !in WalkedFiles(f0, source, target, done, {}, c)
    {
      ChildOrigin(target, target, n, q);
    }
  }

  /** `target + [n]` just created inside a clear `target` is clear itself. */
  lemma ClearAfterCreate(d: set<Path>, f: set<Path>, target: Path, n: string)
    requires forall i :: 0 <= i <= |target + [n]| ==> (target + [n])[..i] !in f
    requires forall q :: IsPrefix(target + [n], q) ==> q !in d && q !in f
    ensures Clear(d + Prefixes(target + [n]), f, target + [n])
  {
  }

  /** No image under `target` of the files `names` directly in `source` is among the entries `taken`: what copying them needs. */
  ghost predicate ImagesFree(taken: set<Path>, target: Path, names: set<string>)
  {
    forall m :: m in names ==> target + [m] !in taken
  }

  lemma ImagesFreeAdd(taken: set<Path>, target: Path, names: set<string>, m: string)
    requires ImagesFree(taken, target, names) && target + [m] !in taken
    ensures ImagesFree(taken, target, names + {m})
  {
  }

  /**
   * Into a clear `target`, once the sub-directories `via` are walked, `target` exists exactly
   * when it did before or a sub-directory was walked, and no image of a file directly in
   * `source` is taken yet.
   */
  lemma ClearWalkOutcome(d0: set<Path>, f0: map<Path, string>, source: Path, target: Path, via: set<string>,
                         c: Copying)
    requires WellFormed(d0, f0.Keys) && Clear(d0, f0.Keys, target)
    ensures target in WalkedDirs(d0, source, target, via, via != {}) <==> target in d0 || via != {}
    ensures forall m :: m in Children(f0.Keys, source) ==>
              target + [m] !in WalkedDirs(d0, source, target, via, via != {})
              && target + [m] !in WalkedFiles(f0, source, target, via, {}, c)
  {
    assert target in Prefixes(target);
    forall m | m in Children(f0.Keys, source)
      ensures target + [m] !in WalkedDirs(d0, source, target, via, via != {})
              && target + [m] !in WalkedFiles(f0, source, target, via, {}, c)
    {
      TopFileFree(d0, f0, source, target, via, m, c);
    }
  }

  /** Into a clear `target`, the image of a file `m` directly in `source` is neither a directory nor a file once the sub-directories are walked. */
  lemma TopFileFree(d0: set<Path>, f0: map<Path, string>, source: Path, target: Path, via: set<string>,
                    m: string, c: Copying)
    requires WellFormed(d0, f0.Keys) && Clear(d0, f0.Keys, target)
    requires source + [m] in f0
    ensures target + [m] !in WalkedDirs(d0, source, target, via, via != {})
    ensures target + [m] !in WalkedFiles(f0, source, target, via, {}, c)
  {
    var q := target + [m];
    assert Below(target, q);
    assert q[|target|..] == [m];
    assert q[|target|] == m;
  }

  // ---------------------------------------------------------------- termination

  /** The directories at or under `p`. */
  function Subtree(d: set<Path>, p: Path): set<Path>
  {
    set q | q in d && IsPrefix(p, q)
  }

  /** The subtree of a sub-directory is strictly smaller, whatever the walk into `target` has created meanwhile. */
  lemma ChildSubtreeShrinks(d0: set<Path>, source: Path, target: Path, done: set<string>, n: string)
    requires source in d0 && Apart(source, target)
    ensures |Subtree(WalkedDirs(d0, source, target, done, done != {}) + Prefixes(target + [n]), source + [n])|
            < |Subtree(d0, source)|
  {
    var d1 := WalkedDirs(d0, source, target, done, done != {}) + Prefixes(target + [n]);
    var a, b := Subtree(d1, source + [n]), Subtree(d0, source);
    ChildrenApart(source, target, n);
    forall q | q in a ensures q in b {
      ApartSubtrees(source + [n], target + [n], q);
      assert q[..|source|] == (source + [n])[..|source|];
      WalkLeavesSource(d0, map[], source, target, done, {}, done != {}, Verbatim, q);
    }
    assert source in b - a;
    assert b == a + (b - a);
  }
}
