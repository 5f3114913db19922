/**
 * `RestartWatcher`: the supervisor that keeps one AssettoServer child running. At start
 * it picks the executable, makes sure the restart inboxes exist and starts the server on
 * a preset picked at random; each `*.asrestart` file dropped into a `restart` folder then
 * stops the running server and starts a new one on the preset named in the file.
 * Processes, watchers and the filesystem are abstract objects; events are method calls.
 */
module Restarting {

  import opened Options
  import opened FileSystems
  import Text

  /** The executable names, tried in this order (the source's constant names have them the other way round). */
  const PreferredExecutable := "AssettoServer.exe"
  const FallbackExecutable := "AssettoServer"

  /** How many rounds `NotAccessibleError` spends at most on bringing the watcher back. */
  const RecoveryLimit: nat := 120

  /** The folder name that marks a restart inbox, compared without regard to case. */
  const InboxName := "restart"

  // ---------------------------------------------------------------- pure helpers

  /** The executable the constructor settles on: the first of the two names present as a file in `base`, or `""`. */
  function ExecutableIn(files: set<Path>, base: Path): (name: string)
    ensures name == "" <==> base + [PreferredExecutable] !in files && base + [FallbackExecutable] !in files
    ensures name != "" ==> base + [name] in files
    ensures name == "" || name == PreferredExecutable || name == FallbackExecutable
    ensures base + [PreferredExecutable] in files ==> name == PreferredExecutable
    ensures base + [PreferredExecutable] !in files && base + [FallbackExecutable] in files ==> name == FallbackExecutable
  {
    if base + [PreferredExecutable] in files then PreferredExecutable
    else if base + [FallbackExecutable] in files then FallbackExecutable
    else ""
  }

  const PresetFlag := "--preset=\""

  /** The argument string of `StartAssettoServer`: the trimmed preset in quotes after `--preset=`, or nothing. */
  function Arguments(preset: Option<string>): (args: string)
    ensures args == [] <==> preset.None?
  {
    match preset
    case None => ""
    case Some(p) => PresetFlag + Text.Trim(p) + "\""
  }

  /** Reads the preset back out of an argument string. */
  function PresetOf(args: string): Option<string>
  {
    if |args| > |PresetFlag| && args[..|PresetFlag|] == PresetFlag && args[|args| - 1] == '"' then
      Some(args[|PresetFlag|..|args| - 1])
    else None
  }

  /** The server receives exactly the trimmed preset, and no preset means no flag at all. */
  lemma ArgumentsRoundTrip(preset: Option<string>)
    ensures PresetOf(Arguments(preset)) == if preset.None? then None else Some(Text.Trim(preset.value))
  {
    if preset.Some? {
      var args := Arguments(preset);
      assert args[..|PresetFlag|] == PresetFlag;
      assert args[|PresetFlag|..|args| - 1] == Text.Trim(preset.value);
    }
  }

  /** Two presets start the server the same way exactly when they agree once trimmed. */
  lemma ArgumentsIdentifyPreset(a: string, b: string)
    ensures Arguments(Some(a)) == Arguments(Some(b)) <==> Text.Trim(a) == Text.Trim(b)
  {
    if Arguments(Some(a)) == Arguments(Some(b)) {
      ArgumentsRoundTrip(Some(a));
      ArgumentsRoundTrip(Some(b));
    }
  }

  /** `Path.GetFileName(Path.GetDirectoryName(p))`: the name of the folder holding `p`, empty for an entry of the root. */
  function FolderName(p: Path): string
    requires p != []
  {
    if |p| >= 2 then p[|p| - 2] else ""
  }

  /** A created file is a restart request when the folder holding it is named `restart`, in any letter case. */
  predicate IsRestartRequest(p: Path)
    requires p != []
  {
    Text.EqualsIgnoreCase(FolderName(p), InboxName)
  }

  lemma RestartRequests(folder: Path, name: string)
    ensures IsRestartRequest(folder + [InboxName] + [name])
    ensures IsRestartRequest(folder + ["RESTART"] + [name])
    ensures !IsRestartRequest([name])
  {
    var p := folder + ["RESTART"] + [name];
    assert FolderName(p) == "RESTART";
    assert FolderName(folder + [InboxName] + [name]) == InboxName;
  }

  // ---------------------------------------------------------------- watcher recovery

  /** Where `NotAccessibleError` ends: after how many rounds, and whether the watcher it holds then raises events. */
  datatype Recovery = Recovery(rounds: nat, listening: bool)

  /**
   * The rounds of `NotAccessibleError` from round `i` on. `present(i)` says whether the
   * watched folder exists during round `i` (the loop test and the test inside the round
   * see the same answer, with no wait between them); `restartFails(i)` says whether
   * re-creating the watcher throws in round `i`. A round disables the watcher, then
   * replaces it with a listening one when the folder is there and that works.
   */
  function Recover(present: nat -> bool, restartFails: nat -> bool, listening: bool, i: nat): (r: Recovery)
    requires i <= RecoveryLimit
    decreases RecoveryLimit - i
    ensures i <= r.rounds <= RecoveryLimit
    ensures r.rounds < RecoveryLimit ==> present(r.rounds) && r.listening
  {
    if i == RecoveryLimit || (present(i) && listening) then Recovery(i, listening)
    else Recover(present, restartFails, present(i) && !restartFails(i), i + 1)
  }

  /** While the folder stays away, the loop uses up all its rounds and leaves the watcher disabled. */
  lemma {:induction false} LostFolderExhaustsRounds(present: nat -> bool, restartFails: nat -> bool, listening: bool, i: nat)
    requires i <= RecoveryLimit
    requires forall j :: i <= j ==> !present(j)
    ensures Recover(present, restartFails, listening, i).rounds == RecoveryLimit
    ensures i < RecoveryLimit ==> !Recover(present, restartFails, listening, i).listening
    decreases RecoveryLimit - i
  {
    if i < RecoveryLimit {
      LostFolderExhaustsRounds(present, restartFails, false, i + 1);
    }
  }

  /** When the folder is back and the watcher can be re-created, one round is enough. */
  lemma SteadyFolderRecoversAtOnce(present: nat -> bool, restartFails: nat -> bool, listening: bool, i: nat)
    requires i < RecoveryLimit && present(i) && present(i + 1) && !restartFails(i)
    ensures Recover(present, restartFails, listening, i).rounds <= i + 1
    ensures Recover(present, restartFails, listening, i).listening
  {
    if !listening {
      assert Recover(present, restartFails, listening, i) == Recover(present, restartFails, true, i + 1);
    }
  }

  /**
   * Whether the watcher raises events when round `j` begins, for a loop that began at round
   * `i` with `listening` and has run every round before `j`: a round that runs leaves a
   * listening watcher exactly when the folder was there and re-creating the watcher worked.
   */
  function ListeningAt(present: nat -> bool, restartFails: nat -> bool, listening: bool, i: nat, j: nat): bool
    requires i <= j
  {
    if j == i then listening else present(j - 1) && !restartFails(j - 1)
  }

  /**
   * The loop stops at the first round whose test finds the folder there and the watcher
   * listening, or after the last round, and it ends with the watcher that round holds.
   */
  lemma {:induction false} RecoverStopsAtFirstChance(present: nat -> bool, restartFails: nat -> bool, listening: bool, i: nat)
    requires i <= RecoveryLimit
    ensures var r := Recover(present, restartFails, listening, i);
      && (r.rounds == RecoveryLimit || (present(r.rounds) && ListeningAt(present, restartFails, listening, i, r.rounds)))
      && (forall j :: i <= j < r.rounds ==> !(present(j) && ListeningAt(present, restartFails, listening, i, j)))
      && r.listening == ListeningAt(present, restartFails, listening, i, r.rounds)
    decreases RecoveryLimit - i
  {
    if i < RecoveryLimit && !(present(i) && listening) {
      var next := present(i) && !restartFails(i);
      RecoverStopsAtFirstChance(present, restartFails, next, i + 1);
      forall j | i + 1 <= j
        ensures ListeningAt(present, restartFails, next, i + 1, j) == ListeningAt(present, restartFails, listening, i, j)
      {
      }
    }
  }

  // ---------------------------------------------------------------- startup directories

  function RestartPath(base: Path): Path
  {
    base + ["cfg", InboxName]
  }

  /** The `restart` folders the constructor creates inside those presets among `names` that have no `restart` entry. */
  function InboxDirs(d: set<Path>, f: set<Path>, presets: Path, names: set<string>): (r: set<Path>)
    ensures forall n :: presets + [n, InboxName] in r <==>
              n in names && presets + [n, InboxName] !in d && presets + [n, InboxName] !in f
    ensures forall q :: q in r ==> |q| == |presets| + 2 && q[..|presets|] == presets && q[|presets|] in names
  {
    var r := set n | n in names && presets + [n, InboxName] !in d && presets + [n, InboxName] !in f :: presets + [n, InboxName];
    forall n | presets + [n, InboxName] in r
      ensures n in names && presets + [n, InboxName] !in d && presets + [n, InboxName] !in f
    {
      var m :| m in names && presets + [m, InboxName] !in d && presets + [m, InboxName] !in f
               && presets + [n, InboxName] == presets + [m, InboxName];
      assert (presets + [n, InboxName])[|presets|] == n;
      assert (presets + [m, InboxName])[|presets|] == m;
    }
    forall q | q in r ensures |q| == |presets| + 2 && q[..|presets|] == presets && q[|presets|] in names {
      var m :| m in names && q == presets + [m, InboxName];
      assert q[|presets|] == m;
    }
    r
  }

  /** The directories after the constructor's preparation: `cfg/restart`, `presets`, and a `restart` folder in every preset. */
  function PreparedDirs(d: set<Path>, f: set<Path>, base: Path): set<Path>
  {
    var d2 := BaseDirs(d, f, base);
    d2 + InboxDirs(d2, f, base + ["presets"], Children(d2, base + ["presets"]))
  }

  /** The directories once `cfg/restart` and `presets` are created where missing. */
  function BaseDirs(d: set<Path>, f: set<Path>, base: Path): set<Path>
  {
    var presets := base + ["presets"];
    var d1 := if RestartPath(base) in d || RestartPath(base) in f then d else d + Prefixes(RestartPath(base));
    if presets in d1 || presets in f then d1 else d1 + Prefixes(presets)
  }

  /** A path inside a directory needs no file on its way for `Directory.CreateDirectory` to succeed. */
  lemma NoFileOnTheWay(d: set<Path>, f: set<Path>, dir: Path, rest: Path)
    requires WellFormed(d, f) && dir in d
    requires forall j :: 0 < j <= |rest| ==> dir + rest[..j] !in f
    ensures forall i :: 0 <= i <= |dir + rest| ==> (dir + rest)[..i] !in f
  {
    forall i | 0 <= i <= |dir + rest| ensures (dir + rest)[..i] !in f {
      if i <= |dir| {
        assert (dir + rest)[..i] == dir[..i];
        AncestorsAreDirectories(d, f, dir, i);
      } else {
        assert (dir + rest)[..i] == dir + rest[..i - |dir|];
      }
    }
  }

  /** Creating a directory inside an existing one adds that directory alone. */
  lemma PrefixesOfChild(d: set<Path>, f: set<Path>, dir: Path, rest: Path)
    requires WellFormed(d, f) && dir in d
    ensures d + Prefixes(dir + rest) == d + (set j | 0 < j <= |rest| :: dir + rest[..j])
  {
    forall q | q in Prefixes(dir + rest) ensures q in d || q in (set j | 0 < j <= |rest| :: dir + rest[..j]) {
      if |q| <= |dir| {
        assert q == dir[..|q|];
        AncestorsAreDirectories(d, f, dir, |q|);
      } else {
        assert q == dir + rest[..|q| - |dir|];
      }
    }
    forall j | 0 < j <= |rest| ensures dir + rest[..j] in Prefixes(dir + rest) {
      assert (dir + rest)[..|dir| + j] == dir + rest[..j];
    }
  }

  /** One turn of the inbox loop: the preset `n` gets a `restart` folder unless it has a `restart` entry already. */
  lemma InboxStep(d: set<Path>, f: set<Path>, presets: Path, done: set<string>, n: string)
    requires WellFormed(d, f) && presets + [n] in d && n !in done
    ensures presets + [n, InboxName] in d + InboxDirs(d, f, presets, done) <==> presets + [n, InboxName] in d
    ensures presets + [n, InboxName] in d || presets + [n, InboxName] in f ==>
              d + InboxDirs(d, f, presets, done) == d + InboxDirs(d, f, presets, done + {n})
    ensures presets + [n, InboxName] !in d && presets + [n, InboxName] !in f ==>
              d + InboxDirs(d, f, presets, done) + Prefixes(presets + [n, InboxName]) ==
              d + InboxDirs(d, f, presets, done + {n})
  {
    var p := presets + [n, InboxName];
    assert p == (presets + [n]) + [InboxName];
    PrefixesOfChild(d, f, presets + [n], [InboxName]);
    assert (set j | 0 < j <= |[InboxName]| :: (presets + [n]) + [InboxName][..j]) == {p} by {
      assert [InboxName][..1] == [InboxName];
    }
  }

  /**
   * After preparation the `cfg/restart` inbox is there (or a file holds its place), the
   * presets folder exists, the set of presets is the one found before, and every preset
   * has a `restart` entry.
   */
  lemma PreparedDirsReady(d: set<Path>, f: set<Path>, base: Path)
    requires WellFormed(d, f) && base in d && base + ["cfg"] !in f && base + ["presets"] !in f
    ensures d <= PreparedDirs(d, f, base)
    ensures RestartPath(base) in PreparedDirs(d, f, base) || RestartPath(base) in f
    ensures base + ["presets"] in PreparedDirs(d, f, base)
    ensures Children(PreparedDirs(d, f, base), base + ["presets"]) == Children(d, base + ["presets"])
    ensures forall n :: n in Children(d, base + ["presets"]) ==>
              base + ["presets", n, InboxName] in PreparedDirs(d, f, base) || base + ["presets", n, InboxName] in f
  {
    var presets := base + ["presets"];
    BaseDirsReady(d, f, base);
    forall n ensures presets + [n] in PreparedDirs(d, f, base) <==> presets + [n] in BaseDirs(d, f, base) {
    }
    forall n | n in Children(d, presets)
      ensures base + ["presets", n, InboxName] in PreparedDirs(d, f, base) || base + ["presets", n, InboxName] in f
    {
      assert base + ["presets", n, InboxName] == presets + [n, InboxName];
    }
  }

  /** Creating `cfg/restart` and `presets` adds no preset: the presets are the sub-directories found before. */
  lemma BaseDirsReady(d: set<Path>, f: set<Path>, base: Path)
    requires WellFormed(d, f) && base in d && base + ["cfg"] !in f && base + ["presets"] !in f
    ensures d <= BaseDirs(d, f, base)
    ensures RestartPath(base) in BaseDirs(d, f, base) || RestartPath(base) in f
    ensures base + ["presets"] in BaseDirs(d, f, base)
    ensures forall n :: base + ["presets"] + [n] in BaseDirs(d, f, base) <==> base + ["presets"] + [n] in d
  {
    var presets := base + ["presets"];
    var d1 := if RestartPath(base) in d || RestartPath(base) in f then d else d + Prefixes(RestartPath(base));
    assert presets in BaseDirs(d, f, base) by {
      assert IsPrefix(presets, presets);
    }
    assert RestartPath(base) in d1 || RestartPath(base) in f by {
      assert IsPrefix(RestartPath(base), RestartPath(base));
    }
    forall n ensures presets + [n] in BaseDirs(d, f, base) <==> presets + [n] in d {
      var q := presets + [n];
      assert q !in Prefixes(RestartPath(base)) by {
        assert q[|base|] == "presets" && RestartPath(base)[|base|] == "cfg";
      }
      assert q !in Prefixes(presets) by {
        assert |q| > |presets|;
      }
    }
  }

  // ---------------------------------------------------------------- processes and watchers

  /**
   * A child process seen from outside: how it was started and whether it has exited.
   * `killsLeft` stands for the operating system's side: how many more `Kill` requests it
   * takes before the process is gone, a number the program never learns.
   */
  class Process {
    const executable: string
    const arguments: string
    const workingDirectory: Path
    var hasExited: bool
    var killsLeft: nat

    ghost predicate Valid()
      reads this
    {
      hasExited <==> killsLeft == 0
    }

    /** `Process.Start`: a running process, on which some unknown positive number of kills will be needed. */
    constructor (executable: string, arguments: string, workingDirectory: Path)
      ensures this.executable == executable && this.arguments == arguments
      ensures this.workingDirectory == workingDirectory
      ensures Valid() && !hasExited
    {
      this.executable := executable;
      this.arguments := arguments;
      this.workingDirectory := workingDirectory;
      var stubbornness: nat :| stubbornness > 0;
      killsLeft := stubbornness;
      hasExited := false;
    }

    /** `Process.Kill`: one more request to end the process. */
    method Kill()
      requires Valid()
      modifies this
      ensures Valid()
      ensures killsLeft == if old(killsLeft) == 0 then 0 else old(killsLeft) - 1
    {
      if killsLeft > 0 {
        killsLeft := killsLeft - 1;
      }
      hasExited := killsLeft == 0;
    }
  }

  /** A `FileSystemWatcher` on a folder: whether it raises events and whether it was disposed. */
  class Watcher {
    const path: Path
    var enabled: bool
    var disposed: bool

    constructor (path: Path)
      ensures this.path == path && !enabled && !disposed
    {
      this.path := path;
      enabled := false;
      disposed := false;
    }
  }

  /** How a created file was handled. */
  datatype Handling = Ignored | ReadFailed | Restarted

  // ---------------------------------------------------------------- the supervisor

  class RestartWatcher {
    const basePath: Path
    const asExecutable: string
    const presetsPath: Path
    var currentProcess: Process?
    var fileWatcher: Watcher?
    /** Every server process started so far, oldest first. */
    ghost var started: seq<Process>

    /** At most one server runs: every process started before the current one has exited. */
    ghost predicate Supervised()
      reads this, started
    {
      && (currentProcess == null <==> started == [])
      && (currentProcess != null ==> currentProcess == started[|started| - 1])
      && (forall k :: 0 <= k < |started| ==> started[k].Valid())
      && (forall k :: 0 <= k < |started| - 1 ==> started[k].hasExited)
    }

    /** No server started by this supervisor is still running. */
    ghost predicate AllExited()
      reads this, started
    {
      forall k :: 0 <= k < |started| ==> started[k].hasExited
    }

    /**
     * Picks the executable in `basePath`; without one it stops there. Otherwise it creates
     * the missing inboxes and the presets folder, picks a preset at random and, when there
     * is one, starts the server on it and begins watching `basePath`.
     */
    constructor (fs: FileSystem, basePath: Path)
      requires fs.Valid() && basePath in fs.dirs
      requires ExecutableIn(fs.files.Keys, basePath) != "" ==>
                 basePath + ["cfg"] !in fs.files && basePath + ["presets"] !in fs.files
      modifies fs
      ensures this.basePath == basePath && presetsPath == basePath + ["presets"]
      ensures asExecutable == ExecutableIn(old(fs.files).Keys, basePath)
      ensures fs.Valid() && fs.files == old(fs.files)
      ensures asExecutable == "" ==> fs.dirs == old(fs.dirs)
      ensures asExecutable != "" ==> fs.dirs == PreparedDirs(old(fs.dirs), old(fs.files).Keys, basePath)
      ensures Supervised()
      ensures currentProcess == null <==> asExecutable == "" || Children(old(fs.dirs), presetsPath) == {}
      ensures currentProcess != null ==>
                fresh(currentProcess) && !currentProcess.hasExited
                && currentProcess.executable == asExecutable && currentProcess.workingDirectory == basePath
                && exists n :: n in Children(old(fs.dirs), presetsPath) && currentProcess.arguments == Arguments(Some(n))
      ensures fileWatcher != null <==> currentProcess != null
      ensures fileWatcher != null ==> fresh(fileWatcher) && fileWatcher.path == basePath && fileWatcher.enabled
    {
      this.basePath := basePath;
      presetsPath := basePath + ["presets"];
      asExecutable := ExecutableIn(fs.files.Keys, basePath);
      currentProcess := null;
      fileWatcher := null;
      started := [];
      new;
      if asExecutable == "" {
        return;
      }
      StartUp(fs);
    }

    /** The constructor's work once an executable was found: directories, the first preset, the server and the watcher. */
    method StartUp(fs: FileSystem)
      requires fs.Valid() && basePath in fs.dirs && presetsPath == basePath + ["presets"]
      requires basePath + ["cfg"] !in fs.files && presetsPath !in fs.files
      requires currentProcess == null && fileWatcher == null && started == []
      modifies this, fs
      ensures fs.Valid() && fs.files == old(fs.files)
      ensures fs.dirs == PreparedDirs(old(fs.dirs), old(fs.files).Keys, basePath)
      ensures Supervised()
      ensures currentProcess == null <==> Children(old(fs.dirs), presetsPath) == {}
      ensures currentProcess != null ==>
                fresh(currentProcess) && !currentProcess.hasExited
                && currentProcess.executable == asExecutable && currentProcess.workingDirectory == basePath
                && exists n :: n in Children(old(fs.dirs), presetsPath) && currentProcess.arguments == Arguments(Some(n))
      ensures fileWatcher != null <==> currentProcess != null
      ensures fileWatcher != null ==> fresh(fileWatcher) && fileWatcher.path == basePath && fileWatcher.enabled
    {
      ghost var d0, f0 := fs.dirs, fs.files;
      PrepareDirectories(fs);
      PreparedDirsReady(d0, f0.Keys, basePath);
      StartFirstServer(fs);
    }

    /** The last part of the constructor: a server on a preset picked at random, and a watcher on `basePath`. */
    method StartFirstServer(fs: FileSystem)
      requires fs.Valid() && presetsPath in fs.dirs
      requires currentProcess == null && fileWatcher == null && started == []
      modifies this
      ensures Supervised()
      ensures currentProcess == null <==> Children(fs.dirs, presetsPath) == {}
      ensures currentProcess != null ==>
                fresh(currentProcess) && !currentProcess.hasExited
                && currentProcess.executable == asExecutable && currentProcess.workingDirectory == basePath
                && exists n :: n in Children(fs.dirs, presetsPath) && currentProcess.arguments == Arguments(Some(n))
      ensures fileWatcher != null <==> currentProcess != null
      ensures fileWatcher != null ==> fresh(fileWatcher) && fileWatcher.path == basePath && fileWatcher.enabled
    {
      var preset := RandomPreset(fs);
      if preset.None? {
        return;
      }
      ghost var name := preset.value;
      var server := StartAssettoServer(preset);
      assert server.arguments == Arguments(Some(name));
      currentProcess := server;
      started := [server];
      fileWatcher := StartWatcher(basePath);
    }

    /** Creates `cfg/restart`, `presets` and each preset's `restart` folder where nothing of that name exists. */
    method PrepareDirectories(fs: FileSystem)
      requires fs.Valid() && basePath in fs.dirs && presetsPath == basePath + ["presets"]
      requires basePath + ["cfg"] !in fs.files && presetsPath !in fs.files
      modifies fs
      ensures fs.Valid() && fs.files == old(fs.files)
      ensures fs.dirs == PreparedDirs(old(fs.dirs), old(fs.files).Keys, basePath)
    {
      ghost var d0, f0 := fs.dirs, fs.files;
      assert ["cfg"][..1] == ["cfg"] && Parent(RestartPath(basePath)) == basePath + ["cfg"];
      NoFileOnTheWay(fs.dirs, fs.files.Keys, basePath, ["cfg"]);
      CreateIfMissing(fs, RestartPath(basePath));
      assert basePath + [] == basePath == Parent(presetsPath);
      NoFileOnTheWay(fs.dirs, fs.files.Keys, basePath, []);
      CreateIfMissing(fs, presetsPath);
      AddInboxes(fs);
    }

    /** The loop over the presets: each preset folder gets its `restart` folder unless something of that name is there. */
    method AddInboxes(fs: FileSystem)
      requires fs.Valid()
      modifies fs
      ensures fs.Valid() && fs.files == old(fs.files)
      ensures fs.dirs == old(fs.dirs) + InboxDirs(old(fs.dirs), old(fs.files).Keys, presetsPath,
                                                   Children(old(fs.dirs), presetsPath))
    {
      ghost var d0, f0 := fs.dirs, fs.files;
      var names := fs.ChildDirectories(presetsPath);
      var pending := names;
      while pending != {}
        invariant fs.Valid() && fs.files == f0
        invariant pending <= names
        invariant fs.dirs == d0 + InboxDirs(d0, f0.Keys, presetsPath, names - pending)
        decreases pending
      {
        var n :| n in pending;
        ghost var done := names - pending;
        AddInbox(fs, n, d0, done);
        pending := pending - {n};
        assert names - pending == done + {n};
      }
      assert names - pending == names;
    }

    /** `Path.Exists` then `Directory.CreateDirectory`: makes `p` and its missing ancestors unless something is at `p`. */
    method CreateIfMissing(fs: FileSystem, p: Path)
      requires fs.Valid() && p != []
      requires forall i :: 0 <= i <= |Parent(p)| ==> Parent(p)[..i] !in fs.files
      modifies fs
      ensures fs.Valid() && fs.files == old(fs.files)
      ensures fs.dirs == if old(fs.Exists(p)) then old(fs.dirs) else old(fs.dirs) + Prefixes(p)
    {
      if !fs.Exists(p) {
        assert forall i :: 0 <= i <= |p| ==> p[..i] !in fs.files by {
          forall i | 0 <= i <= |p| ensures p[..i] !in fs.files {
            if i < |p| {
              assert p[..i] == Parent(p)[..i];
            } else {
              assert p[..i] == p;
            }
          }
        }
        var created := fs.CreateDirectory(p);
      }
    }

    /** One turn of the inbox loop: the preset `n` gets its `restart` folder unless something of that name is there. */
    method AddInbox(fs: FileSystem, n: string, ghost d2: set<Path>, ghost done: set<string>)
      requires fs.Valid() && WellFormed(d2, fs.files.Keys) && presetsPath + [n] in d2 && n !in done
      requires fs.dirs == d2 + InboxDirs(d2, fs.files.Keys, presetsPath, done)
      modifies fs
      ensures fs.Valid() && fs.files == old(fs.files)
      ensures fs.dirs == d2 + InboxDirs(d2, fs.files.Keys, presetsPath, done + {n})
    {
      var inbox := presetsPath + [n, InboxName];
      InboxStep(d2, fs.files.Keys, presetsPath, done, n);
      assert inbox == (presetsPath + [n]) + [InboxName];
      assert [InboxName][..1] == [InboxName];
      assert presetsPath + [n] + [] == presetsPath + [n] == Parent(inbox);
      NoFileOnTheWay(d2, fs.files.Keys, presetsPath + [n], []);
      CreateIfMissing(fs, inbox);
    }

    /** `RandomPreset`: nothing when the presets folder holds no folder, otherwise the name of one of them. */
    method RandomPreset(fs: FileSystem) returns (preset: Option<string>)
      requires fs.Valid() && presetsPath in fs.dirs
      ensures preset.None? <==> Children(fs.dirs, presetsPath) == {}
      ensures preset.Some? ==> preset.value in Children(fs.dirs, presetsPath)
    {
      var directories := fs.ChildDirectories(presetsPath);
      if directories == {} {
        return None;
      }
      var pick :| pick in directories;
      return Some(pick);
    }

    /** `StartAssettoServer`: a new running process of the executable, in `basePath`, with the preset's arguments. */
    method StartAssettoServer(preset: Option<string>) returns (server: Process)
      ensures fresh(server) && server.Valid() && !server.hasExited
      ensures server.executable == asExecutable && server.workingDirectory == basePath
      ensures server.arguments == Arguments(preset)
    {
      server := new Process(asExecutable, Arguments(preset), basePath);
    }

    /** `StopAssettoServer`: kills the process again and again until it reports that it has exited. */
    method StopAssettoServer(server: Process)
      requires server.Valid()
      modifies server
      ensures server.Valid() && server.hasExited
    {
      while !server.hasExited
        invariant server.Valid()
        decreases server.killsLeft
      {
        server.Kill();
      }
    }

    /** `StartWatcher`: a new watcher on `path` that raises events. */
    method StartWatcher(path: Path) returns (watcher: Watcher)
      ensures fresh(watcher) && watcher.path == path && watcher.enabled && !watcher.disposed
    {
      watcher := new Watcher(path);
      watcher.enabled := true;
    }

    /**
     * `OnRestartFileCreated`: a file created outside a `restart` folder is ignored.
     * Otherwise the running server is stopped first, the file's text is read as the preset,
     * a server is started on it and becomes the current one, and the file is deleted last.
     * A file that cannot be read ends the handler with the old server stopped.
     */
    method OnRestartFileCreated(fs: FileSystem, created: Path) returns (handling: Handling)
      requires fs.Valid() && Supervised() && created != []
      modifies this, fs, currentProcess
      ensures fs.Valid() && Supervised() && fs.dirs == old(fs.dirs) && fileWatcher == old(fileWatcher)
      ensures handling == Ignored <==> !IsRestartRequest(created)
      ensures handling == Ignored ==>
                currentProcess == old(currentProcess) && started == old(started) && fs.files == old(fs.files)
                && (currentProcess != null ==> currentProcess.hasExited == old(currentProcess.hasExited))
      ensures handling != Ignored && old(currentProcess) != null ==> old(currentProcess).hasExited
      ensures handling == ReadFailed <==> IsRestartRequest(created) && created !in old(fs.files)
      ensures handling == ReadFailed ==>
                currentProcess == old(currentProcess) && started == old(started) && fs.files == old(fs.files)
      ensures handling == Restarted ==>
                fresh(currentProcess) && currentProcess != null && !currentProcess.hasExited
                && currentProcess.executable == asExecutable && currentProcess.workingDirectory == basePath
                && currentProcess.arguments == Arguments(Some(old(fs.files)[created]))
                && started == old(started) + [currentProcess]
                && fs.files == old(fs.files) - {created}
    {
      if !IsRestartRequest(created) {
        return Ignored;
      }
      StopCurrentServer();
      var text := fs.ReadAllText(created);
      if text.None? {
        return ReadFailed;
      }
      LaunchServer(text.value);
      var deleted := fs.DeleteFile(created);
      return Restarted;
    }

    /** Stops the current server, if there is one; then no server started so far is running. */
    method StopCurrentServer()
      requires Supervised()
      modifies currentProcess
      ensures Supervised() && AllExited()
      ensures currentProcess != null ==> currentProcess.hasExited
    {
      if currentProcess != null {
        StopAssettoServer(currentProcess);
      }
    }

    /** Starts a server on `preset` and makes it the current one. */
    method LaunchServer(preset: string)
      requires Supervised() && AllExited()
      modifies this
      ensures Supervised() && fileWatcher == old(fileWatcher)
      ensures fresh(currentProcess) && currentProcess != null && !currentProcess.hasExited
      ensures currentProcess.executable == asExecutable && currentProcess.workingDirectory == basePath
      ensures currentProcess.arguments == Arguments(Some(preset))
      ensures started == old(started) + [currentProcess]
    {
      var server := StartAssettoServer(Some(preset));
      currentProcess := server;
      started := started + [server];
    }

    /**
     * `NotAccessibleError`: while the watched folder is missing or the watcher is disabled,
     * and for at most `RecoveryLimit` rounds, disables the watcher and, when the folder is
     * there, disposes of it and starts a new one. It hands back the rounds it took and the
     * watcher it ended with; the caller's watcher field is not updated.
     */
    method NotAccessibleError(source: Watcher, present: nat -> bool, restartFails: nat -> bool)
      returns (rounds: nat, current: Watcher)
      modifies source
      ensures Recovery(rounds, current.enabled) == Recover(present, restartFails, old(source.enabled), 0)
      ensures current.path == source.path
      ensures current == source || fresh(current)
    {
      ghost var outcome := Recover(present, restartFails, source.enabled, 0);
      var i := 0;
      current := source;
      while (!present(i) || !current.enabled) && i < RecoveryLimit
        invariant i <= RecoveryLimit
        invariant current.path == source.path
        invariant current == source || fresh(current)
        invariant Recover(present, restartFails, current.enabled, i) == outcome
        decreases RecoveryLimit - i
      {
        var round := i;
        i := i + 1;
        current.enabled := false;
        if present(round) {
          var path := current.path;
          current.disposed := true;
          if restartFails(round) {
            current.enabled := false;
          } else {
            current := StartWatcher(path);
          }
        }
      }
      rounds := i;
    }

    /** `Exit` as written: stops the current server, and faults on the null-forgiving `_currentProcess!` when there is none. */
    method Exit() returns (faulted: bool)
      requires Supervised()
      modifies currentProcess
      ensures Supervised()
      ensures faulted <==> currentProcess == null
      ensures !faulted ==> AllExited()
    {
      if currentProcess == null {
        return true;
      }
      StopAssettoServer(currentProcess);
      return false;
    }

    /** `Exit` with the missing null check: after it no server started by this supervisor runs. */
    method ExitSafely()
      requires Supervised()
      modifies currentProcess
      ensures Supervised() && AllExited()
    {
      StopCurrentServer();
    }
  }

  /** A supervisor built where neither executable exists never starts a server, so exiting it faults. */
  method ExitWithoutExecutable(fs: FileSystem, basePath: Path) returns (faulted: bool)
    requires fs.Valid() && basePath in fs.dirs
    requires basePath + [PreferredExecutable] !in fs.files && basePath + [FallbackExecutable] !in fs.files
    modifies fs
    ensures faulted
  {
    var watcher := new RestartWatcher(fs, basePath);
    faulted := watcher.Exit();
  }
}
