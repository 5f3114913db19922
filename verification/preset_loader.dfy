/**
 * `PresetLoader`: the older loader. It renames the presets folder out of the way, copies
 * the templates into a new one verbatim, and then visits every copied file with a
 * pattern that .NET refuses to parse, so the first file visited ends the run with an
 * exception and nothing is ever substituted.
 */
module PresetLoading {

  import opened Options
  import opened FileSystems
  import opened Mirroring
  import opened Configuration
  import Placeholders

  // ---------------------------------------------------------------- patterns

  /** The pattern `TemplateLoader` hands to `Regex.Replace`. */
  const TemplatePattern: string := @"\[\$([a-z0-9_-]+)\]"

  /** The pattern `PresetLoader` hands to `Regex.Matches` and `Regex.Replace`. */
  const PresetPattern: string := @"^[\$([a-z0-9_-]+)]$"

  /**
   * The part of .NET's pattern parser the model keeps: `\` escapes the next character,
   * `[` opens a character class that the next `]` closes and inside which `(`, `)` and `[`
   * are plain characters, and outside a class every `)` must close an open `(`. A pattern
   * that breaks these rules makes the `Regex` call throw before it looks at any input.
   */
  function GroupsClose(p: string, depth: nat, inClass: bool): bool
    decreases |p|
  {
    if p == [] then depth == 0 && !inClass
    else if p[0] == '\\' then |p| >= 2 && GroupsClose(p[2..], depth, inClass)
    else if inClass then GroupsClose(p[1..], depth, p[0] != ']')
    else if p[0] == '[' then GroupsClose(p[1..], depth, true)
    else if p[0] == '(' then GroupsClose(p[1..], depth + 1, false)
    else if p[0] == ')' then depth > 0 && GroupsClose(p[1..], depth - 1, false)
    else GroupsClose(p[1..], depth, false)
  }

  predicate GroupsBalanced(p: string)
  {
    GroupsClose(p, 0, false)
  }

  /** No character of `p` is one of `cs`. */
  predicate Avoids(p: string, cs: string)
  {
    forall i :: 0 <= i < |p| ==> p[i] !in cs
  }

  /** Ordinary characters outside a class change nothing. */
  lemma {:induction false} PlainThrough(p: string, rest: string, depth: nat)
    requires Avoids(p, "\\[()")
    ensures GroupsClose(p + rest, depth, false) == GroupsClose(rest, depth, false)
    decreases |p|
  {
    if p != [] {
      assert (p + rest)[0] == p[0] && (p + rest)[1..] == p[1..] + rest;
      assert p[0] !in "\\[()";
      PlainThrough(p[1..], rest, depth);
    } else {
      assert p + rest == rest;
    }
  }

  /** Inside a class everything up to the first `]` is swallowed, brackets and parentheses included. */
  lemma {:induction false} ClassThrough(p: string, rest: string, depth: nat)
    requires Avoids(p, "\\]")
    ensures GroupsClose(p + "]" + rest, depth, true) == GroupsClose(rest, depth, false)
    decreases |p|
  {
    var s := p + "]" + rest;
    if p == [] {
      assert s == "]" + rest && s[0] == ']' && s[1..] == rest;
    } else {
      assert s[0] == p[0] && s[1..] == p[1..] + "]" + rest;
      assert p[0] !in "\\]";
      ClassThrough(p[1..], rest, depth);
    }
  }

  /** One character `c` that is neither an escape nor plain text, read outside or inside a class. */
  lemma Special(c: char, rest: string, depth: nat, inClass: bool)
    requires c != '\\'
    ensures !inClass && c == '[' ==> GroupsClose([c] + rest, depth, false) == GroupsClose(rest, depth, true)
    ensures !inClass && c == '(' ==> GroupsClose([c] + rest, depth, false) == GroupsClose(rest, depth + 1, false)
    ensures !inClass && c == ')' ==>
              GroupsClose([c] + rest, depth, false) == (depth > 0 && GroupsClose(rest, depth - 1, false))
  {
    assert ([c] + rest)[0] == c && ([c] + rest)[1..] == rest;
  }

  /** An escape skips the character after it. */
  lemma Escape(c: char, rest: string, depth: nat, inClass: bool)
    ensures GroupsClose(['\\', c] + rest, depth, inClass) == GroupsClose(rest, depth, inClass)
  {
    assert (['\\', c] + rest)[0] == '\\' && (['\\', c] + rest)[2..] == rest;
  }

  /** The class `[\$([a-z0-9_-]` swallows the `(`, so the `)` after it closes nothing. */
  lemma PresetPatternRejected()
    ensures !GroupsBalanced(PresetPattern)
  {
    // Bound through `:|` so that the verifier does not unfold the parser on literal text.
    var members :| members == "([a-z0-9_-";
    var tail :| tail == "]$";
    assert PresetPattern == "^" + ("[" + (['\\', '$'] + (members + "]" + ("+" + (")" + tail)))));
    assert Avoids(members, "\\]");
    Special(')', tail, 0, false);
    PlainThrough("+", ")" + tail, 0);
    ClassThrough(members, "+" + (")" + tail), 0);
    Escape('$', members + "]" + ("+" + (")" + tail)), 0, true);
    Special('[', ['\\', '$'] + (members + "]" + ("+" + (")" + tail))), 0, false);
    PlainThrough("^", "[" + (['\\', '$'] + (members + "]" + ("+" + (")" + tail)))), 0);
  }

  /** The escaped brackets of `\[\$([a-z0-9_-]+)\]` leave one group, which the `)` closes. */
  lemma TemplatePatternAccepted()
    ensures GroupsBalanced(TemplatePattern)
  {
    var members :| members == "a-z0-9_-";
    var last := ['\\', ']'];
    var afterGroup := ")" + last;
    var afterClass := "+" + afterGroup;
    var group := "(" + ("[" + (members + "]" + afterClass));
    assert TemplatePattern == ['\\', '['] + (['\\', '$'] + group);
    assert Avoids(members, "\\]");
    assert GroupsClose(last, 0, false) by {
      Escape(']', [], 0, false);
      assert last == ['\\', ']'] + [];
    }
    Special(')', last, 1, false);
    PlainThrough("+", afterGroup, 1);
    ClassThrough(members, afterClass, 1);
    Special('[', members + "]" + afterClass, 1, false);
    Special('(', "[" + (members + "]" + afterClass), 0, false);
    Escape('$', group, 0, false);
    Escape('[', ['\\', '$'] + group, 0, false);
  }

  // ---------------------------------------------------------------- lookup

  /** What `PresetLoader.TryGetValue` does: returns a value, returns `false`, or throws from the dictionary indexer. */
  datatype Resolution = Resolved(value: string) | Unresolved | Thrown

  /**
   * `PresetLoader.TryGetValue`: with the environment enabled only the environment is
   * consulted; otherwise the config is indexed, which throws when the key is missing or
   * no config was read. Empty values are not found.
   */
  function TryGetValue(config: Option<map<string, string>>, environment: map<string, string>, useEnvVar: bool,
                       property: string): (r: Resolution)
    ensures r.Resolved? ==> r.value != ""
    ensures r.Thrown? <==> !useEnvVar && (config.None? || property !in config.value)
    ensures r.Resolved? && useEnvVar ==> r.value == Placeholders.EnvironmentVariable(environment, property)
    ensures r.Resolved? && !useEnvVar ==> r.value == config.value[property]
  {
    if useEnvVar then
      var v := Placeholders.EnvironmentVariable(environment, property);
      if v != "" then Resolved(v) else Unresolved
    else if config.None? || property !in config.value then Thrown
    else if config.value[property] != "" then Resolved(config.value[property])
    else Unresolved
  }

  /** With the environment enabled the config is never consulted, and an unset variable is not found even when the config holds a value. */
  lemma EnvironmentOnly(c1: Option<map<string, string>>, c2: Option<map<string, string>>,
                        environment: map<string, string>, property: string)
    ensures TryGetValue(c1, environment, true, property) == TryGetValue(c2, environment, true, property)
    ensures TryGetValue(c1, environment, true, property).Unresolved? <==>
              Placeholders.EnvironmentVariable(environment, property) == ""
  {
  }

  /** With the environment disabled the result is the config's, and the environment plays no part. */
  lemma ConfigOnly(config: Option<map<string, string>>, e1: map<string, string>, e2: map<string, string>,
                   property: string)
    ensures TryGetValue(config, e1, false, property) == TryGetValue(config, e2, false, property)
    ensures config.Some? && property in config.value ==>
              (TryGetValue(config, e1, false, property).Unresolved? <==> config.value[property] == "")
  {
  }

  /** Given a key both hold, the two loaders resolve it in opposite orders. */
  lemma ResolutionOrdersDiffer(config: map<string, string>, environment: map<string, string>, property: string)
    requires property in config && config[property] != ""
    requires Placeholders.EnvironmentVariable(environment, property) != ""
    ensures TryGetValue(Some(config), environment, true, property) ==
              Resolved(Placeholders.EnvironmentVariable(environment, property))
    ensures Placeholders.TryGetValue(Placeholders.Settings(config, environment, true), property) ==
              Placeholders.Found(config[property])
  {
  }

  /** Without the environment, the two loaders agree on every key the config holds, and differ on a missing one: one throws, the other warns. */
  lemma ResolutionsWithoutEnvironment(config: map<string, string>, environment: map<string, string>, property: string)
    ensures property in config ==>
              (TryGetValue(Some(config), environment, false, property).Resolved? <==>
               Placeholders.TryGetValue(Placeholders.Settings(config, environment, false), property).Found?)
    ensures property !in config ==>
              TryGetValue(Some(config), environment, false, property).Thrown? &&
              Placeholders.TryGetValue(Placeholders.Settings(config, environment, false), property) ==
                Placeholders.NotFound(Some(Placeholders.ConfigVariableNotFound(property)))
  {
  }

  // ---------------------------------------------------------------- copying

  /**
   * `PresetLoader.CopyFilesRecursively`: each sub-directory of `source` is created under
   * `target` and walked, then each file directly in `source` is copied with
   * `FileInfo.CopyTo`, which refuses to overwrite. The first exception ends the walk.
   */
  method CopyFilesRecursively(fs: FileSystem, source: Path, target: Path) returns (ok: bool)
    requires fs.Valid() && source in fs.dirs && Apart(source, target)
    modifies fs
    decreases |Subtree(fs.dirs, source)|, 2
    ensures fs.Valid()
    ensures StaysInside(old(fs.dirs), old(fs.files), fs.dirs, fs.files, target)
    ensures ok ==> fs.dirs == MirrorDirs(old(fs.dirs), source, target)
    ensures ok ==> fs.files == MirrorFiles(old(fs.files), source, target, Verbatim)
    ensures Clear(old(fs.dirs), old(fs.files).Keys, target) ==>
              (ok <==> target in old(fs.dirs) || Children(old(fs.dirs), source) != {}
                       || Children(old(fs.files).Keys, source) == {})
  {
    ghost var d0, f0 := fs.dirs, fs.files;
    ghost var via := Children(d0, source);
    ok := CopySubdirectories(fs, source, target);
    if !ok {
      return;
    }
    ghost var d1, f1 := fs.dirs, fs.files;
    WalkKeepsTopFiles(f0, source, target, via, Verbatim);
    if Clear(d0, f0.Keys, target) {
      ClearWalkOutcome(d0, f0, source, target, via, Verbatim);
    }
    ok := CopyDirectFiles(fs, source, target);
    StaysInsideTrans(d0, f0, d1, f1, fs.dirs, fs.files, target);
    if ok {
      WalkedThenTop(f0, source, target, via, Children(f0.Keys, source), Verbatim);
      WalkComplete(d0, f0, source, target, Verbatim);
    }
  }

  /** The first loop: each sub-directory of `source`, in no particular order, is created under `target` and walked. */
  method CopySubdirectories(fs: FileSystem, source: Path, target: Path) returns (ok: bool)
    requires fs.Valid() && source in fs.dirs && Apart(source, target)
    modifies fs
    decreases |Subtree(fs.dirs, source)|, 1
    ensures fs.Valid()
    ensures StaysInside(old(fs.dirs), old(fs.files), fs.dirs, fs.files, target)
    ensures ok ==> fs.dirs == WalkedDirs(old(fs.dirs), source, target, Children(old(fs.dirs), source),
                                         Children(old(fs.dirs), source) != {})
    ensures ok ==> fs.files == WalkedFiles(old(fs.files), source, target, Children(old(fs.dirs), source), {}, Verbatim)
    ensures Clear(old(fs.dirs), old(fs.files).Keys, target) ==> ok
  {
    ghost var d0, f0 := fs.dirs, fs.files;
    ok := true;
    var subdirs := fs.ChildDirectories(source);
    var todo := subdirs;
    WalkStart(d0, f0, source, target, Verbatim);
    while todo != {}
      invariant fs.Valid()
      invariant todo <= subdirs
      invariant fs.dirs == WalkedDirs(d0, source, target, subdirs - todo, subdirs - todo != {})
      invariant fs.files == WalkedFiles(f0, source, target, subdirs - todo, {}, Verbatim)
      decreases todo
    {
      var n :| n in todo;
      ghost var done := subdirs - todo;
      ok := WalkSubdirectory(fs, source, target, n, d0, f0, done);
      if !ok {
        return;
      }
      todo := todo - {n};
      assert subdirs - todo == done + {n};
    }
    assert subdirs - todo == subdirs == Children(d0, source);
    WalkedStaysInside(d0, f0, source, target, subdirs, {}, subdirs != {}, Verbatim);
  }

  /** One turn of the first loop: `target/n` is created and `source/n` walked into it, after the sub-directories `done`. */
  method WalkSubdirectory(fs: FileSystem, source: Path, target: Path, n: string,
                          ghost d0: set<Path>, ghost f0: map<Path, string>, ghost done: set<string>)
    returns (ok: bool)
    requires fs.Valid() && source in d0 && source + [n] in d0 && Apart(source, target)
    requires fs.dirs == WalkedDirs(d0, source, target, done, done != {})
    requires fs.files == WalkedFiles(f0, source, target, done, {}, Verbatim)
    modifies fs
    decreases |Subtree(d0, source)|, 0
    ensures fs.Valid()
    ensures StaysInside(d0, f0, fs.dirs, fs.files, target)
    ensures ok ==> fs.dirs == WalkedDirs(d0, source, target, done + {n}, true)
    ensures ok ==> fs.files == WalkedFiles(f0, source, target, done + {n}, {}, Verbatim)
    ensures Clear(d0, f0.Keys, target) && n !in done ==> ok
  {
    ghost var clear0 := Clear(d0, f0.Keys, target) && n !in done;
    if clear0 {
      ClearChild(d0, f0, source, target, done, n, Verbatim);
    }
    var created := fs.CreateDirectory(target + [n]);
    if !created {
      WalkedStaysInside(d0, f0, source, target, done, {}, done != {}, Verbatim);
      return false;
    }
    ghost var d1, f1 := fs.dirs, fs.files;
    assert target + [n] in d1;
    if clear0 {
      ClearAfterCreate(WalkedDirs(d0, source, target, done, done != {}), f1.Keys, target, n);
      assert Clear(d1, f1.Keys, target + [n]);
    }
    ChildrenApart(source, target, n);
    ChildSubtreeShrinks(d0, source, target, done, n);
    ok := CopyFilesRecursively(fs, source + [n], target + [n]);
    if !ok {
      ChildWalkStaysInside(d0, f0, source, target, done, n, Verbatim, fs.dirs, fs.files);
      assert !clear0;
      return;
    }
    DirStep(d0, source, target, done, n);
    FileStep(f0, source, target, done, n, Verbatim);
    WalkedStaysInside(d0, f0, source, target, done + {n}, {}, true, Verbatim);
  }

  /**
   * The second loop: each file directly in `source`, in no particular order, is copied
   * into `target`; it fails exactly when there is a file to copy and `target` is not a
   * directory, or when the image of a file already exists.
   */
  method CopyDirectFiles(fs: FileSystem, source: Path, target: Path) returns (ok: bool)
    requires fs.Valid() && Apart(source, target)
    modifies fs
    ensures fs.Valid() && fs.dirs == old(fs.dirs)
    ensures StaysInside(old(fs.dirs), old(fs.files), fs.dirs, fs.files, target)
    ensures ok <==> (Children(old(fs.files).Keys, source) == {} || target in old(fs.dirs))
                    && forall m :: m in Children(old(fs.files).Keys, source) ==>
                         target + [m] !in old(fs.dirs) && target + [m] !in old(fs.files)
    ensures ok ==> fs.files == WalkedFiles(old(fs.files), source, target, {}, Children(old(fs.files).Keys, source), Verbatim)
  {
    ghost var d0, f0 := fs.dirs, fs.files;
    var names := fs.ChildFiles(source);
    ghost var copied;
    ok, copied := CopyEachFile(fs, source, target, names, d0, f0);
    WalkedStaysInside(d0, f0, source, target, {}, copied, false, Verbatim);
  }

  /** The loop of `CopyDirectFiles` over the files `names` directly in `source`; `copied` are those it copied. */
  method CopyEachFile(fs: FileSystem, source: Path, target: Path, names: set<string>,
                      ghost d0: set<Path>, ghost f0: map<Path, string>)
    returns (ok: bool, ghost copied: set<string>)
    requires fs.Valid() && fs.dirs == d0 && fs.files == f0 && Apart(source, target)
    requires forall m :: m in names ==> source + [m] in f0
    modifies fs
    ensures fs.Valid() && fs.dirs == d0
    ensures fs.files == WalkedFiles(f0, source, target, {}, copied, Verbatim)
    ensures ok <==> (names == {} || target in d0) && ImagesFree(d0 + f0.Keys, target, names)
    ensures ok ==> copied == names
  {
    assert source != target;
    var pending := names;
    copied := {};
    WalkStart(d0, f0, source, target, Verbatim);
    ok := true;
    while pending != {}
      invariant fs.Valid() && fs.dirs == d0
      invariant copied + pending == names && copied !! pending
      invariant fs.files == WalkedFiles(f0, source, target, {}, copied, Verbatim)
      invariant copied != {} ==> target in d0
      invariant ImagesFree(d0 + f0.Keys, target, copied)
      decreases pending
    {
      var m :| m in pending;
      ok := CopyDirectFile(fs, source, target, m, d0, f0, copied);
      if !ok {
        return;
      }
      ImagesFreeAdd(d0 + f0.Keys, target, copied, m);
      pending := pending - {m};
      copied := copied + {m};
    }
  }

  /** One turn of the second loop: `source/m` is copied to `target/m` with `FileInfo.CopyTo`, after the files `copied`. */
  method CopyDirectFile(fs: FileSystem, source: Path, target: Path, m: string,
                        ghost d0: set<Path>, ghost f0: map<Path, string>, ghost copied: set<string>)
    returns (ok: bool)
    requires fs.Valid() && fs.dirs == d0 && Apart(source, target) && source + [m] in f0 && m !in copied
    requires fs.files == WalkedFiles(f0, source, target, {}, copied, Verbatim)
    modifies fs
    ensures fs.Valid() && fs.dirs == d0
    ensures ok <==> target in d0 && target + [m] !in d0 && target + [m] !in f0
    ensures ok ==> fs.files == WalkedFiles(f0, source, target, {}, copied + {m}, Verbatim)
    ensures !ok ==> fs.files == old(fs.files)
  {
    TopFileStep(f0, source, target, {}, copied, m, Verbatim);
    TopImageUntouched(f0, source, target, {}, copied, m, Verbatim);
    assert Parent(target + [m]) == target;
    ok := fs.CopyFile(source + [m], target + [m]);
  }

  // ---------------------------------------------------------------- the loader

  /**
   * How `PresetLoader.Load` ends. Without a presets path the `DirectoryInfo` constructor
   * throws on the null path; the other three exceptions come from the rename, the copy and
   * the update.
   */
  datatype LoadOutcome = NoPresetPath | RenameThrew | CopyThrew | UpdateThrew | Completed

  class PresetLoader {
    const templatePath: Path
    const useEnvVar: bool
    /** The parent of the templates folder; meaningful only when `presetPath` is set. */
    const basePath: Path
    /** `basePath/presets`, or `None` (a null string) when the templates folder has no parent. */
    const presetPath: Option<Path>
    /** The parsed `template_cfg.json`, or `None` (a null dictionary) when it was not read. */
    const config: Option<map<string, string>>

    /** The folders sit where the constructor put them: the presets folder beside the templates folder. */
    predicate Located()
    {
      presetPath.Some? ==>
        templatePath != [] && basePath == Parent(templatePath) && presetPath.value == basePath + ["presets"]
    }

    /**
     * Locates the presets folder next to the templates folder and reads
     * `templates/template_cfg.json` when it exists; a root templates folder has no parent,
     * and the constructor stops there.
     */
    constructor (fs: FileSystem, templatePath: Path, useEnvVar: bool, decode: string -> Json)
      requires templatePath != [] && fs.Exists(templatePath + ["template_cfg.json"]) ==>
                 templatePath + ["template_cfg.json"] in fs.files
                 && !decode(fs.files[templatePath + ["template_cfg.json"]]).Malformed?
      ensures Located()
      ensures this.templatePath == templatePath && this.useEnvVar == useEnvVar
      ensures presetPath.None? <==> templatePath == []
      ensures presetPath.Some? ==> presetPath.value == Parent(templatePath) + ["presets"]
      ensures templatePath != [] && templatePath + ["template_cfg.json"] in fs.files ==>
                config == Parse(decode(fs.files[templatePath + ["template_cfg.json"]]))
      ensures templatePath == [] || templatePath + ["template_cfg.json"] !in fs.files ==> config.None?
    {
      this.templatePath := templatePath;
      this.useEnvVar := useEnvVar;
      if templatePath == [] {
        basePath := [];
        presetPath := None;
        config := None;
      } else {
        basePath := Parent(templatePath);
        presetPath := Some(Parent(templatePath) + ["presets"]);
        var cfgPath := templatePath + ["template_cfg.json"];
        if fs.Exists(cfgPath) {
          config := Parse(decode(fs.files[cfgPath]));
        } else {
          config := None;
        }
      }
    }

    /** Where `Load` renames the old presets folder: its name with the date appended. */
    function AsidePath(stamp: string): Path
    {
      basePath + ["presets" + stamp]
    }

    /** The directories once an existing presets folder has been renamed. */
    function MovedAsideDirs(d: set<Path>, f: set<Path>, stamp: string): set<Path>
      requires presetPath.Some?
    {
      if presetPath.value in d || presetPath.value in f then MovedSet(d, presetPath.value, AsidePath(stamp)) else d
    }

    /** The files once an existing presets folder has been renamed. */
    function MovedAsideFiles(d: set<Path>, f: map<Path, string>, stamp: string): map<Path, string>
      requires presetPath.Some?
    {
      if presetPath.value in d || presetPath.value in f then MovedMap(f, presetPath.value, AsidePath(stamp)) else f
    }

    /**
     * `UpdateFile`: reads the file, then calls `Regex.Matches` with `PresetPattern`, which
     * throws when the pattern does not parse; otherwise it would write back the text it
     * read, since the result of `Regex.Replace` is dropped. The file's text is never changed.
     */
    method UpdateFile(fs: FileSystem, path: Path) returns (ok: bool)
      requires fs.Valid()
      modifies fs
      ensures fs.Valid() && fs.dirs == old(fs.dirs) && fs.files == old(fs.files)
      ensures ok <==> path in old(fs.files) && GroupsBalanced(PresetPattern)
    {
      var text := fs.ReadAllText(path);
      if text.None? {
        return false;
      }
      if !GroupsBalanced(PresetPattern) {
        return false;
      }
      ok := fs.WriteAllText(path, text.value);
      assert fs.files == old(fs.files)[path := old(fs.files)[path]];
    }

    /** `UpdatePresets`: `UpdateFile` on every file under `path`, in no particular order; throws when `path` is not a directory. */
    method UpdatePresets(fs: FileSystem, path: Path) returns (ok: bool)
      requires fs.Valid()
      modifies fs
      ensures fs.Valid() && fs.dirs == old(fs.dirs) && fs.files == old(fs.files)
      ensures ok <==> path in old(fs.dirs) && (EntriesUnder(old(fs.files).Keys, path) == {} || GroupsBalanced(PresetPattern))
    {
      if path !in fs.dirs {
        return false;
      }
      var all := EntriesUnder(fs.files.Keys, path);
      var pending := all;
      ok := true;
      while pending != {}
        invariant fs.Valid() && fs.dirs == old(fs.dirs) && fs.files == old(fs.files)
        invariant pending <= all && ok
        invariant pending != all ==> GroupsBalanced(PresetPattern)
        decreases pending
      {
        var file :| file in pending;
        ok := UpdateFile(fs, file);
        if !ok {
          return;
        }
        pending := pending - {file};
      }
    }

    /**
     * `Load`: renames an existing presets folder to `presets<stamp>` (an exception if that
     * fails, as on a second run the same day), copies the templates into a new presets
     * folder, and updates every file in it. Whatever the copy leaves behind stays in place
     * when a later step throws. The run completes only when the templates hold no file at
     * all: with any file to update, the malformed pattern throws.
     */
    method Load(fs: FileSystem, stamp: string) returns (outcome: LoadOutcome)
      requires fs.Valid() && Located()
      modifies fs
      ensures fs.Valid()
      ensures outcome == NoPresetPath <==> presetPath.None?
      ensures outcome == RenameThrew <==>
                presetPath.Some? && old(fs.Exists(presetPath.value))
                && !CanMove(old(fs.dirs), old(fs.files).Keys, presetPath.value, AsidePath(stamp))
      ensures outcome == NoPresetPath || outcome == RenameThrew ==> fs.dirs == old(fs.dirs) && fs.files == old(fs.files)
      ensures outcome == CopyThrew ==>
                presetPath.Some?
                && StaysInside(MovedAsideDirs(old(fs.dirs), old(fs.files).Keys, stamp),
                               MovedAsideFiles(old(fs.dirs), old(fs.files), stamp), fs.dirs, fs.files, presetPath.value)
      ensures outcome == UpdateThrew || outcome == Completed ==>
                presetPath.Some?
                && fs.dirs == MirrorDirs(MovedAsideDirs(old(fs.dirs), old(fs.files).Keys, stamp), templatePath, presetPath.value)
                && fs.files == MirrorFiles(MovedAsideFiles(old(fs.dirs), old(fs.files), stamp), templatePath,
                                           presetPath.value, Verbatim)
      ensures presetPath.Some? && outcome != RenameThrew ==>
                (outcome != CopyThrew <==>
                   templatePath in MovedAsideDirs(old(fs.dirs), old(fs.files).Keys, stamp)
                   && (Children(MovedAsideDirs(old(fs.dirs), old(fs.files).Keys, stamp), templatePath) != {}
                       || Children(MovedAsideFiles(old(fs.dirs), old(fs.files), stamp).Keys, templatePath) == {}))
      ensures outcome == UpdateThrew || outcome == Completed ==>
                (outcome == Completed <==>
                   presetPath.value in fs.dirs && EntriesUnder(fs.files.Keys, presetPath.value) == {})
      ensures outcome == Completed ==> forall q :: q in old(fs.files) ==> !Below(templatePath, q)
    {
      if presetPath.None? {
        return NoPresetPath;
      }
      var presets := presetPath.value;
      ghost var d0, f0 := fs.dirs, fs.files;
      var moved := MoveAside(fs, stamp);
      if !moved {
        return RenameThrew;
      }
      PresetsGone(d0, f0.Keys, stamp);
      if templatePath !in fs.dirs {
        return CopyThrew;
      }
      MovedAsideClearsPresets(d0, f0, stamp);
      TemplatesBesidePresets();
      var copied := CopyFilesRecursively(fs, templatePath, presets);
      if !copied {
        return CopyThrew;
      }
      PresetPatternRejected();
      var updated := UpdatePresets(fs, presets);
      if updated {
        TemplatesHeldNoFile(d0, f0, stamp);
        return Completed;
      }
      return UpdateThrew;
    }

    /** `Path.Exists` and `Directory.Move`: an existing presets folder (or file) is renamed to `presets<stamp>`, and the rename can throw. */
    method MoveAside(fs: FileSystem, stamp: string) returns (ok: bool)
      requires fs.Valid() && presetPath.Some?
      modifies fs
      ensures fs.Valid()
      ensures ok <==> !old(fs.Exists(presetPath.value))
                      || CanMove(old(fs.dirs), old(fs.files).Keys, presetPath.value, AsidePath(stamp))
      ensures ok ==> fs.dirs == MovedAsideDirs(old(fs.dirs), old(fs.files).Keys, stamp)
                     && fs.files == MovedAsideFiles(old(fs.dirs), old(fs.files), stamp)
      ensures !ok ==> fs.dirs == old(fs.dirs) && fs.files == old(fs.files)
    {
      ok := true;
      if fs.Exists(presetPath.value) {
        ok := fs.MoveTree(presetPath.value, AsidePath(stamp));
      }
    }

    /** Once the presets folder has been renamed, or when there was none, nothing is left at its path. */
    lemma PresetsGone(d: set<Path>, f: set<Path>, stamp: string)
      requires presetPath.Some? && Located()
      requires presetPath.value in d || presetPath.value in f ==> CanMove(d, f, presetPath.value, AsidePath(stamp))
      ensures presetPath.value !in MovedAsideDirs(d, f, stamp)
    {
      if presetPath.value in d || presetPath.value in f {
        assert !IsPrefix(presetPath.value, AsidePath(stamp));
        assert !IsPrefix(AsidePath(stamp), presetPath.value);
      }
    }

    /**
     * Once the presets folder has been renamed, or when there was none, the path is clear
     * for the copy: its ancestors are directories and nothing lies under it. The templates
     * folder being there shows that its parent, the base folder, is a directory.
     */
    lemma MovedAsideClearsPresets(d0: set<Path>, f0: map<Path, string>, stamp: string)
      requires presetPath.Some? && Located() && WellFormed(d0, f0.Keys)
      requires presetPath.value in d0 || presetPath.value in f0 ==> CanMove(d0, f0.Keys, presetPath.value, AsidePath(stamp))
      requires templatePath in MovedAsideDirs(d0, f0.Keys, stamp)
      ensures Clear(MovedAsideDirs(d0, f0.Keys, stamp), MovedAsideFiles(d0, f0, stamp).Keys, presetPath.value)
    {
      var presets := presetPath.value;
      var aside := AsidePath(stamp);
      var moved := presets in d0 || presets in f0;
      var d1, f1 := MovedAsideDirs(d0, f0.Keys, stamp), MovedAsideFiles(d0, f0, stamp).Keys;
      assert templatePath == basePath + [templatePath[|basePath|]];
      assert basePath in d0 by {
        if moved {
          assert Parent(aside) == basePath;
        } else {
          AncestorsAreDirectories(d0, f0.Keys, templatePath, |basePath|);
          assert templatePath[..|basePath|] == basePath;
        }
      }
      if moved {
        assert !IsPrefix(aside, presets);
      }
      forall i | 0 <= i <= |presets| ensures presets[..i] !in f1 {
        if i <= |basePath| {
          AncestorsAreDirectories(d0, f0.Keys, basePath, i);
          assert presets[..i] == basePath[..i];
        } else {
          assert presets[..i] == presets;
        }
      }
      forall q | Below(presets, q) ensures q !in d1 && q !in f1 {
        if q in d0 {
          AncestorsAreDirectories(d0, f0.Keys, q, |presets|);
        } else if q in f0 {
          AncestorsOfFile(d0, f0.Keys, q, |presets|);
        }
        if moved && IsPrefix(aside, q) {
          PrefixesOfOnePath(presets, aside, q);
        }
      }
    }

    /** The templates folder and the presets folder are siblings, so they are apart unless they are the same folder. */
    lemma TemplatesBesidePresets()
      requires presetPath.Some? && Located()
      ensures templatePath != presetPath.value ==> Apart(templatePath, presetPath.value)
    {
      assert templatePath == basePath + [templatePath[|basePath|]];
    }

    /**
     * The copy puts an image of every file under the templates folder under the presets
     * folder; when the update then finds no file there, the templates held none.
     */
    lemma TemplatesHeldNoFile(d0: set<Path>, f0: map<Path, string>, stamp: string)
      requires presetPath.Some? && Located()
      requires presetPath.value in d0 || presetPath.value in f0 ==> CanMove(d0, f0.Keys, presetPath.value, AsidePath(stamp))
      requires templatePath in MovedAsideDirs(d0, f0.Keys, stamp)
      requires EntriesUnder(MirrorFiles(MovedAsideFiles(d0, f0, stamp), templatePath, presetPath.value, Verbatim).Keys,
                            presetPath.value) == {}
      ensures forall q :: q in f0 ==> !Below(templatePath, q)
    {
      forall q | q in f0 && Below(templatePath, q) ensures false {
        TemplateFileCopied(d0, f0, stamp, q);
      }
    }

    /** A file under the templates folder survives the rename and has an image under the presets folder after the copy. */
    lemma TemplateFileCopied(d0: set<Path>, f0: map<Path, string>, stamp: string, q: Path)
      requires presetPath.Some? && Located()
      requires presetPath.value in d0 || presetPath.value in f0 ==> CanMove(d0, f0.Keys, presetPath.value, AsidePath(stamp))
      requires templatePath in MovedAsideDirs(d0, f0.Keys, stamp)
      requires q in f0 && Below(templatePath, q)
      ensures presetPath.value + q[|templatePath|..] in
                EntriesUnder(MirrorFiles(MovedAsideFiles(d0, f0, stamp), templatePath, presetPath.value, Verbatim).Keys,
                             presetPath.value)
    {
      var presets := presetPath.value;
      var f1 := MovedAsideFiles(d0, f0, stamp);
      PresetsGone(d0, f0.Keys, stamp);
      assert templatePath == basePath + [templatePath[|basePath|]];
      assert q[..|presets|] != presets;
      assert q in f1;
      var image := presets + q[|templatePath|..];
      assert image[|presets|..] == q[|templatePath|..];
      assert templatePath + image[|presets|..] == q;
      assert image in AllImages(f1.Keys, templatePath, presets);
    }
  }
}
