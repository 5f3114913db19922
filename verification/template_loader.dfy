/**
 * `TemplateLoader`: regenerates the `presets` folder from the `templates` folder next to
 * it, replacing every `[$name]` placeholder in every copied file by its value from
 * `templates/template_cfg.json` or, optionally, from the environment.
 */
module TemplateLoading {

  import opened Options
  import opened FileSystems
  import Text
  import Placeholders
  import opened Mirroring
  import opened Configuration

  /** How `Load` ends: one of its two early returns, a completed copy, or an exception thrown out of it. */
  datatype LoadOutcome = NoTemplateFolder | NoTemplateConfig | Generated | Threw

  class TemplateLoader {
    const basePath: Path
    const useEnvVar: bool
    const deleteOldPresets: bool
    const presetPath: Path := basePath + ["presets"]
    const templatePath: Path := basePath + ["templates"]
    const configPath: Path := templatePath + ["template_cfg.json"]
    /** The parsed `template_cfg.json`; `None` until `Load` has read it. */
    var config: Option<map<string, string>>

    constructor (basePath: Path, useEnvVar: bool, deleteOldPresets: bool)
      ensures this.basePath == basePath
      ensures this.useEnvVar == useEnvVar && this.deleteOldPresets == deleteOldPresets
      ensures config == None
    {
      this.basePath := basePath;
      this.useEnvVar := useEnvVar;
      this.deleteOldPresets := deleteOldPresets;
      config := None;
    }

    /** The sources `TryGetValue` consults, given the process environment. */
    function SettingsFor(environment: map<string, string>): (s: Placeholders.Settings)
      reads this
      requires config.Some?
      ensures s.config == config.value && s.environment == environment && s.useEnvVar == useEnvVar
    {
      Placeholders.Settings(config.value, environment, useEnvVar)
    }

    // ------------------------------------------------------------ setting the old presets aside

    /** Where `Load` renames an old presets folder: its name with the timestamp appended. */
    function AsidePath(stamp: string): Path
    {
      basePath + ["presets" + stamp]
    }

    /** Deleting or renaming the old presets folder succeeds: it is a directory to delete, or something to rename to a free name. */
    predicate AsideWorks(d: set<Path>, f: set<Path>, stamp: string)
    {
      if deleteOldPresets then presetPath in d else CanMove(d, f, presetPath, AsidePath(stamp))
    }

    /** The directories once the old presets are set aside; a failure, caught and logged, changes nothing. */
    function AsideDirs(d: set<Path>, f: set<Path>, stamp: string): set<Path>
    {
      if !AsideWorks(d, f, stamp) then d
      else if deleteOldPresets then Pruned(d, presetPath)
      else MovedSet(d, presetPath, AsidePath(stamp))
    }

    function AsideFiles(d: set<Path>, f: map<Path, string>, stamp: string): map<Path, string>
    {
      if !AsideWorks(d, f.Keys, stamp) then f
      else if deleteOldPresets then PrunedMap(f, presetPath)
      else MovedMap(f, presetPath, AsidePath(stamp))
    }

    /** The first step of `Load`: an existing presets folder is deleted or renamed; an exception is caught. */
    method SetAsideOldPresets(fs: FileSystem, stamp: string)
      requires fs.Valid()
      modifies fs
      ensures fs.Valid()
      ensures fs.dirs == AsideDirs(old(fs.dirs), old(fs.files).Keys, stamp)
      ensures fs.files == AsideFiles(old(fs.dirs), old(fs.files), stamp)
    {
      if fs.Exists(presetPath) {
        var ok;
        if deleteOldPresets {
          ok := fs.DeleteTree(presetPath);
        } else {
          ok := fs.MoveTree(presetPath, AsidePath(stamp));
        }
      }
    }

    /** Setting the presets aside leaves everything else alone, the templates and their ancestors included. */
    lemma AsideKeepsTemplates(d: set<Path>, f: map<Path, string>, stamp: string, q: Path)
      requires IsPrefix(templatePath, q) || IsPrefix(q, configPath)
      ensures q in AsideDirs(d, f.Keys, stamp) <==> q in d
      ensures q in AsideFiles(d, f, stamp) <==> q in f
      ensures q in f ==> AsideFiles(d, f, stamp)[q] == f[q]
    {
      assert !IsPrefix(presetPath, q) && !IsPrefix(AsidePath(stamp), q) by {
        if |q| > |basePath| {
          assert q[|basePath|] == "templates";
        }
        assert ("presets" + stamp)[0] == 'p';
      }
    }

    /** The templates folder, its ancestors and its contents look the same once the presets are set aside. */
    lemma AsideKeepsTemplateTree(d: set<Path>, f: map<Path, string>, stamp: string)
      ensures forall i :: 0 <= i <= |configPath| ==>
                (configPath[..i] in AsideDirs(d, f.Keys, stamp) <==> configPath[..i] in d)
                && (configPath[..i] in AsideFiles(d, f, stamp) <==> configPath[..i] in f)
      ensures configPath in f ==> configPath in AsideFiles(d, f, stamp) && AsideFiles(d, f, stamp)[configPath] == f[configPath]
      ensures Children(AsideDirs(d, f.Keys, stamp), templatePath) == Children(d, templatePath)
      ensures Children(AsideFiles(d, f, stamp).Keys, templatePath) == Children(f.Keys, templatePath)
    {
      forall i | 0 <= i <= |configPath|
        ensures (configPath[..i] in AsideDirs(d, f.Keys, stamp) <==> configPath[..i] in d)
                && (configPath[..i] in AsideFiles(d, f, stamp) <==> configPath[..i] in f)
      {
        AsideKeepsTemplates(d, f, stamp, configPath[..i]);
      }
      AsideKeepsTemplates(d, f, stamp, configPath);
      forall n ensures templatePath + [n] in AsideDirs(d, f.Keys, stamp) <==> templatePath + [n] in d {
        AsideKeepsTemplates(d, f, stamp, templatePath + [n]);
      }
      forall n ensures templatePath + [n] in AsideFiles(d, f, stamp) <==> templatePath + [n] in f {
        AsideKeepsTemplates(d, f, stamp, templatePath + [n]);
      }
    }

    /**
     * With the templates and their configuration in place, the presets folder is clear once
     * set aside, unless it could not be deleted or renamed.
     */
    lemma AsideClearsPresets(d: set<Path>, f: map<Path, string>, stamp: string)
      requires WellFormed(d, f.Keys) && configPath in f
      requires presetPath in d || presetPath in f ==> AsideWorks(d, f.Keys, stamp)
      ensures presetPath !in AsideDirs(d, f.Keys, stamp)
      ensures Clear(AsideDirs(d, f.Keys, stamp), AsideFiles(d, f, stamp).Keys, presetPath)
    {
      var d1, f1 := AsideDirs(d, f.Keys, stamp), AsideFiles(d, f, stamp).Keys;
      assert Parent(configPath) == templatePath;
      assert Parent(templatePath) == basePath;
      forall i | 0 <= i <= |presetPath| ensures presetPath[..i] !in f1 {
        if i <= |basePath| {
          AncestorsAreDirectories(d, f.Keys, basePath, i);
          assert presetPath[..i] == basePath[..i];
          assert presetPath[..i] !in f;
          AsideKeepsTemplates(d, f, stamp, presetPath[..i]);
        } else {
          assert presetPath[..i] == presetPath;
        }
      }
      forall q | Below(presetPath, q) ensures q !in d1 && q !in f1 {
        if q in d {
          AncestorsAreDirectories(d, f.Keys, q, |presetPath|);
        } else if q in f {
          AncestorsOfFile(d, f.Keys, q, |presetPath|);
        }
        if !deleteOldPresets && AsideWorks(d, f.Keys, stamp) && IsPrefix(AsidePath(stamp), q) {
          PrefixesOfOnePath(presetPath, AsidePath(stamp), q);
        }
      }
      if !deleteOldPresets && AsideWorks(d, f.Keys, stamp) {
        assert !IsPrefix(AsidePath(stamp), presetPath);
      }
    }

    // ------------------------------------------------------------ Load

    /**
     * Regenerates the presets: sets the old presets folder aside, creates a missing
     * templates folder (and stops), stops when `template_cfg.json` is missing, and otherwise
     * reads it and copies the templates into the presets folder with every placeholder
     * expanded. `stamp` is the timestamp the clock would give and `decode` the JSON reader.
     */
    method Load(fs: FileSystem, environment: map<string, string>, stamp: string, decode: string -> Json)
      returns (outcome: LoadOutcome)
      requires fs.Valid()
      modifies this, fs
      ensures fs.Valid()
      ensures outcome == NoTemplateFolder <==>
                !old(fs.Exists(templatePath)) && forall i :: 0 <= i <= |templatePath| ==> templatePath[..i] !in old(fs.files)
      ensures outcome == NoTemplateConfig <==> old(fs.Exists(templatePath)) && !old(fs.Exists(configPath))
      ensures outcome in {NoTemplateFolder, NoTemplateConfig} ==> config == old(config)
      ensures configPath in old(fs.dirs) ==> outcome == Threw
      ensures configPath in old(fs.files) && decode(old(fs.files)[configPath]).Malformed? ==> outcome == Threw
      ensures outcome == Generated ==>
                && configPath in old(fs.files)
                && config == Parse(decode(old(fs.files)[configPath]))
                && fs.dirs == MirrorDirs(AsideDirs(old(fs.dirs), old(fs.files).Keys, stamp), templatePath, presetPath)
                && fs.files == MirrorFiles(AsideFiles(old(fs.dirs), old(fs.files), stamp), templatePath, presetPath,
                                           Expanding(SettingsFor(environment)))
      ensures configPath in old(fs.files) && !decode(old(fs.files)[configPath]).Malformed?
              && (old(fs.Exists(presetPath)) ==> AsideWorks(old(fs.dirs), old(fs.files).Keys, stamp))
              ==> (outcome == Generated <==> Children(old(fs.dirs), templatePath) != {})
      ensures outcome == NoTemplateFolder ==>
                && fs.dirs == AsideDirs(old(fs.dirs), old(fs.files).Keys, stamp) + Prefixes(templatePath)
                && fs.files == AsideFiles(old(fs.dirs), old(fs.files), stamp)
      ensures outcome == NoTemplateConfig ||
              (outcome == Threw && !(configPath in old(fs.files) && Parse(decode(old(fs.files)[configPath])).Some?)) ==>
                && fs.dirs == AsideDirs(old(fs.dirs), old(fs.files).Keys, stamp)
                && fs.files == AsideFiles(old(fs.dirs), old(fs.files), stamp)
      ensures outcome == Threw ==>
                StaysInside(AsideDirs(old(fs.dirs), old(fs.files).Keys, stamp),
                            AsideFiles(old(fs.dirs), old(fs.files), stamp), fs.dirs, fs.files, presetPath)
    {
      ghost var d0, f0 := fs.dirs, fs.files;
      SetAsideOldPresets(fs, stamp);
      AsideKeepsTemplateTree(d0, f0, stamp);
      assert templatePath == configPath[..|templatePath|];
      assert Parent(configPath) == templatePath;
      if !fs.Exists(templatePath) {
        assert forall i :: 0 <= i <= |templatePath| ==> templatePath[..i] == configPath[..i];
        var created := fs.CreateDirectory(templatePath);
        return if created then NoTemplateFolder else Threw;
      }
      assert configPath == configPath[..|configPath|];
      if !fs.Exists(configPath) {
        return NoTemplateConfig;
      }
      var json := fs.ReadAllText(configPath);
      if json.None? {
        return Threw;
      }
      var parsed := Parse(decode(json.value));
      if parsed.None? {
        return Threw;
      }
      config := parsed;
      var ok := GeneratePresets(fs, environment, d0, f0, stamp);
      outcome := if ok then Generated else Threw;
    }

    /**
     * The last step of `Load`, once the old presets are set aside and the config is read:
     * the templates are copied into the presets folder. Unless setting aside an existing
     * presets folder failed, the copy fails exactly when the templates folder has no
     * sub-directory.
     */
    method GeneratePresets(fs: FileSystem, environment: map<string, string>,
                           ghost d0: set<Path>, ghost f0: map<Path, string>, stamp: string)
      returns (ok: bool)
      requires fs.Valid() && config.Some? && WellFormed(d0, f0.Keys) && configPath in f0
      requires fs.dirs == AsideDirs(d0, f0.Keys, stamp) && fs.files == AsideFiles(d0, f0, stamp)
      modifies fs
      ensures fs.Valid()
      ensures ok ==> fs.dirs == MirrorDirs(AsideDirs(d0, f0.Keys, stamp), templatePath, presetPath)
      ensures ok ==> fs.files == MirrorFiles(AsideFiles(d0, f0, stamp), templatePath, presetPath,
                                             Expanding(SettingsFor(environment)))
      ensures StaysInside(AsideDirs(d0, f0.Keys, stamp), AsideFiles(d0, f0, stamp), fs.dirs, fs.files, presetPath)
      ensures (presetPath in d0 || presetPath in f0 ==> AsideWorks(d0, f0.Keys, stamp))
              ==> (ok <==> Children(d0, templatePath) != {})
    {
      ghost var d1, f1 := fs.dirs, fs.files;
      AsideKeepsTemplateTree(d0, f0, stamp);
      assert Parent(configPath) == templatePath;
      if presetPath in d0 || presetPath in f0 ==> AsideWorks(d0, f0.Keys, stamp) {
        AsideClearsPresets(d0, f0, stamp);
        assert "template_cfg.json" in Children(f1.Keys, templatePath);
      }
      assert Apart(templatePath, presetPath) by {
        assert templatePath[|basePath|] != presetPath[|basePath|];
      }
      ok := CopyFilesRecursively(fs, templatePath, presetPath, environment);
    }

    /**
     * Copies `sourcePath/fileName` to `targetPath/fileName` line by line, each line with
     * its placeholders replaced. Opening the writer truncates an existing file and throws
     * when `targetPath` is not a directory or the target is a directory.
     */
    method CopyFile(fs: FileSystem, sourcePath: Path, targetPath: Path, fileName: string,
                    environment: map<string, string>) returns (ok: bool)
      requires fs.Valid() && config.Some?
      requires sourcePath + [fileName] in fs.files && sourcePath != targetPath
      modifies fs
      ensures fs.Valid()
      ensures ok <==> targetPath in old(fs.dirs) && targetPath + [fileName] !in old(fs.dirs)
      ensures fs.dirs == old(fs.dirs)
      ensures fs.files == if ok then old(fs.files)[targetPath + [fileName] :=
                  Placeholders.ExpandText(SettingsFor(environment), old(fs.files)[sourcePath + [fileName]])]
                else old(fs.files)
    {
      var input := fs.files[sourcePath + [fileName]];
      var target := targetPath + [fileName];
      assert Parent(target) == targetPath;
      assert target != sourcePath + [fileName] by {
        assert Parent(sourcePath + [fileName]) == sourcePath;
      }
      ok := fs.CreateFile(target);
      if !ok {
        return;
      }
      var s := SettingsFor(environment);
      var unread := input;
      while true
        invariant fs.Valid() && target in fs.files && fs.dirs == old(fs.dirs)
        invariant fs.files == old(fs.files)[target := fs.files[target]]
        invariant Placeholders.ExpandText(s, input) == fs.files[target] + Placeholders.ExpandText(s, unread)
        decreases |unread|
      {
        var line := Text.ReadLine(unread);
        if line.None? {
          Placeholders.ExpandEmpty(s);
          break;
        }
        Placeholders.ExpandStep(s, input, fs.files[target], unread);
        fs.AppendText(target, Placeholders.RewriteLine(s, line.value.0) + "\n");
        unread := unread[line.value.1..];
      }
      assert fs.files[target] + [] == fs.files[target];
    }

    /**
     * Mirrors the directory `source` into `target`: each sub-directory is created under
     * `target` and walked, then each file directly in `source` is copied with `CopyFile`.
     * The first exception ends the walk. Into a clear `target` the walk fails only when
     * `source` holds files but no sub-directory and `target` is missing: the files are then
     * written into a directory nothing has created.
     */
    method CopyFilesRecursively(fs: FileSystem, source: Path, target: Path, environment: map<string, string>)
      returns (ok: bool)
      requires fs.Valid() && config.Some? && source in fs.dirs && Apart(source, target)
      modifies fs
      decreases |Subtree(fs.dirs, source)|, 2
      ensures fs.Valid()
      ensures StaysInside(old(fs.dirs), old(fs.files), fs.dirs, fs.files, target)
      ensures ok ==> fs.dirs == MirrorDirs(old(fs.dirs), source, target)
      ensures ok ==> fs.files == MirrorFiles(old(fs.files), source, target, Expanding(SettingsFor(environment)))
      ensures Clear(old(fs.dirs), old(fs.files).Keys, target) ==>
                (ok <==> target in old(fs.dirs) || Children(old(fs.dirs), source) != {}
                         || Children(old(fs.files).Keys, source) == {})
    {
      ghost var d0, f0 := fs.dirs, fs.files;
      ghost var c := Expanding(SettingsFor(environment));
      ghost var via := Children(d0, source);
      ok := CopySubdirectories(fs, source, target, environment);
      if !ok {
        return;
      }
      ghost var d1, f1 := fs.dirs, fs.files;
      WalkKeepsTopFiles(f0, source, target, via, c);
      if Clear(d0, f0.Keys, target) {
        ClearWalkOutcome(d0, f0, source, target, via, c);
      }
      ok := CopyDirectFiles(fs, source, target, environment);
      StaysInsideTrans(d0, f0, d1, f1, fs.dirs, fs.files, target);
      if ok {
        WalkedThenTop(f0, source, target, via, Children(f0.Keys, source), c);
        WalkComplete(d0, f0, source, target, c);
      }
    }

    /** The first loop of `CopyFilesRecursively`: each sub-directory of `source`, in no particular order, is created under `target` and walked. */
    method CopySubdirectories(fs: FileSystem, source: Path, target: Path, environment: map<string, string>)
      returns (ok: bool)
      requires fs.Valid() && config.Some? && source in fs.dirs && Apart(source, target)
      modifies fs
      decreases |Subtree(fs.dirs, source)|, 1
      ensures fs.Valid()
      ensures StaysInside(old(fs.dirs), old(fs.files), fs.dirs, fs.files, target)
      ensures ok ==> fs.dirs == WalkedDirs(old(fs.dirs), source, target, Children(old(fs.dirs), source),
                                           Children(old(fs.dirs), source) != {})
      ensures ok ==> fs.files == WalkedFiles(old(fs.files), source, target, Children(old(fs.dirs), source), {},
                                             Expanding(SettingsFor(environment)))
      ensures Clear(old(fs.dirs), old(fs.files).Keys, target) ==> ok
    {
      ghost var d0, f0 := fs.dirs, fs.files;
      ghost var c := Expanding(SettingsFor(environment));
      ok := true;
      var subdirs := fs.ChildDirectories(source);
      var todo := subdirs;
      WalkStart(d0, f0, source, target, c);
      while todo != {}
        invariant fs.Valid()
        invariant todo <= subdirs
        invariant fs.dirs == WalkedDirs(d0, source, target, subdirs - todo, subdirs - todo != {})
        invariant fs.files == WalkedFiles(f0, source, target, subdirs - todo, {}, c)
        decreases todo
      {
        var n :| n in todo;
        ghost var done := subdirs - todo;
        ok := WalkSubdirectory(fs, source, target, n, environment, d0, f0, done);
        if !ok {
          return;
        }
        todo := todo - {n};
        assert subdirs - todo == done + {n};
      }
      assert subdirs - todo == subdirs == Children(d0, source);
      WalkedStaysInside(d0, f0, source, target, subdirs, {}, subdirs != {}, c);
    }

    /**
     * One turn of the first loop: `target/n` is created and `source/n` walked into it, after
     * the walk from `d0`, `f0` has been through the sub-directories `done`.
     */
    method WalkSubdirectory(fs: FileSystem, source: Path, target: Path, n: string, environment: map<string, string>,
                            ghost d0: set<Path>, ghost f0: map<Path, string>, ghost done: set<string>)
      returns (ok: bool)
      requires fs.Valid() && config.Some? && source in d0 && source + [n] in d0 && Apart(source, target)
      requires fs.dirs == WalkedDirs(d0, source, target, done, done != {})
      requires fs.files == WalkedFiles(f0, source, target, done, {}, Expanding(SettingsFor(environment)))
      modifies fs
      decreases |Subtree(d0, source)|, 0
      ensures fs.Valid()
      ensures StaysInside(d0, f0, fs.dirs, fs.files, target)
      ensures ok ==> fs.dirs == WalkedDirs(d0, source, target, done + {n}, true)
      ensures ok ==> fs.files == WalkedFiles(f0, source, target, done + {n}, {}, Expanding(SettingsFor(environment)))
      ensures Clear(d0, f0.Keys, target) && n !in done ==> ok
    {
      ghost var c := Expanding(SettingsFor(environment));
      ghost var clear0 := Clear(d0, f0.Keys, target) && n !in done;
      if clear0 {
        ClearChild(d0, f0, source, target, done, n, c);
      }
      var created := fs.CreateDirectory(target + [n]);
      if !created {
        WalkedStaysInside(d0, f0, source, target, done, {}, done != {}, c);
        return false;
      }
      ghost var d1, f1 := fs.dirs, fs.files;
      assert target + [n] in d1;
      if clear0 {
        ClearAfterCreate(WalkedDirs(d0, source, target, done, done != {}), f1.Keys, target, n);
        assert Clear(d1, f1.Keys, target + [n]);
      }
      ChildrenApart(source, target, n);
      ChildSubtreeShrinks(d0, source, target, done, n);
      ok := CopyFilesRecursively(fs, source + [n], target + [n], environment);
      if !ok {
        ChildWalkStaysInside(d0, f0, source, target, done, n, c, fs.dirs, fs.files);
        assert !clear0;
        return;
      }
      DirStep(d0, source, target, done, n);
      FileStep(f0, source, target, done, n, c);
      WalkedStaysInside(d0, f0, source, target, done + {n}, {}, true, c);
    }

    /**
     * The second loop of `CopyFilesRecursively`: each file directly in `source`, in no
     * particular order, is copied into `target`; it fails exactly when there is a file to
     * copy and `target` is not a directory, or when the image of a file is a directory.
     */
    method CopyDirectFiles(fs: FileSystem, source: Path, target: Path, environment: map<string, string>)
      returns (ok: bool)
      requires fs.Valid() && config.Some? && Apart(source, target)
      modifies fs
      ensures fs.Valid() && fs.dirs == old(fs.dirs)
      ensures StaysInside(old(fs.dirs), old(fs.files), fs.dirs, fs.files, target)
      ensures ok <==> (Children(old(fs.files).Keys, source) == {} || target in old(fs.dirs))
                      && forall m :: m in Children(old(fs.files).Keys, source) ==> target + [m] !in old(fs.dirs)
      ensures ok ==> fs.files == WalkedFiles(old(fs.files), source, target, {}, Children(old(fs.files).Keys, source),
                                             Expanding(SettingsFor(environment)))
    {
      ghost var d0, f0 := fs.dirs, fs.files;
      var names := fs.ChildFiles(source);
      ghost var copied;
      ok, copied := CopyEachFile(fs, source, target, names, environment, d0, f0);
      WalkedStaysInside(d0, f0, source, target, {}, copied, false, Expanding(SettingsFor(environment)));
    }

    /** The loop of `CopyDirectFiles` over the files `names` directly in `source`; `copied` are those it copied. */
    method CopyEachFile(fs: FileSystem, source: Path, target: Path, names: set<string>, environment: map<string, string>,
                        ghost d0: set<Path>, ghost f0: map<Path, string>)
      returns (ok: bool, ghost copied: set<string>)
      requires fs.Valid() && config.Some? && fs.dirs == d0 && fs.files == f0 && Apart(source, target)
      requires forall m :: m in names ==> source + [m] in f0
      modifies fs
      ensures fs.Valid() && fs.dirs == d0
      ensures fs.files == WalkedFiles(f0, source, target, {}, copied, Expanding(SettingsFor(environment)))
      ensures ok <==> (names == {} || target in d0) && ImagesFree(d0, target, names)
      ensures ok ==> copied == names
    {
      ghost var c := Expanding(SettingsFor(environment));
      assert source != target;
      var pending := names;
      copied := {};
      WalkStart(d0, f0, source, target, c);
      ok := true;
      while pending != {}
        invariant fs.Valid() && fs.dirs == d0
        invariant copied + pending == names && copied !! pending
        invariant fs.files == WalkedFiles(f0, source, target, {}, copied, c)
        invariant copied != {} ==> target in d0
        invariant ImagesFree(d0, target, copied)
        decreases pending
      {
        var m :| m in pending;
        ok := CopyDirectFile(fs, source, target, m, environment, d0, f0, copied);
        if !ok {
          return;
        }
        ImagesFreeAdd(d0, target, copied, m);
        pending := pending - {m};
        copied := copied + {m};
      }
    }

    /** One turn of the second loop: `source/m` is copied to `target/m` with `CopyFile`, after the files `copied`. */
    method CopyDirectFile(fs: FileSystem, source: Path, target: Path, m: string, environment: map<string, string>,
                          ghost d0: set<Path>, ghost f0: map<Path, string>, ghost copied: set<string>)
      returns (ok: bool)
      requires fs.Valid() && config.Some? && fs.dirs == d0 && Apart(source, target) && source + [m] in f0
      requires fs.files == WalkedFiles(f0, source, target, {}, copied, Expanding(SettingsFor(environment)))
      modifies fs
      ensures fs.Valid() && fs.dirs == d0
      ensures ok <==> target in d0 && target + [m] !in d0
      ensures ok ==> fs.files == WalkedFiles(f0, source, target, {}, copied + {m}, Expanding(SettingsFor(environment)))
      ensures !ok ==> fs.files == old(fs.files)
    {
      TopFileStep(f0, source, target, {}, copied, m, Expanding(SettingsFor(environment)));
      assert source != target;
      ok := CopyFile(fs, source, target, m, environment);
    }
  }
}
