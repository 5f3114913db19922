# AssettoServer template parser and restart supervisor, modelled in Dafny

The repository has three parts that the model covers.

- `TemplateLoader` regenerates an AssettoServer `presets` folder from the `templates`
  folder beside it. First it deletes the old presets, or renames them to
  `presets<timestamp>`. Then it reads `templates/template_cfg.json`. Last, it mirrors the
  template tree into `presets`. Each file is copied line by line, and every `[$name]`
  placeholder is replaced by its value from the config or, optionally, from the process
  environment.
- `PresetLoader` is the older variant of the same loader. Its lookup is environment-first,
  and its update pass never changes a file.
- `RestartWatcher` is the supervisor that keeps one AssettoServer child running. At start
  it picks the executable, creates the restart inboxes (`cfg/restart` and one `restart`
  folder per preset), and starts the server on a preset picked at random. Each file later
  created in a folder named `restart` makes it do four things, in order:
  1. stop the running server;
  2. read the file's text as a preset name;
  3. start a new server on that preset;
  4. delete the file.

The modules follow the program.

- `FileSystems` (filesystem.dfy) is the filesystem as a class:
  - a set of directories and a map from file paths to their text, where a path is a normalised sequence of names and a file's text is what `StreamReader` decodes (UTF-8, a byte-order mark detected and dropped);
  - one method per .NET call the code makes (`Directory.CreateDirectory`, `Directory.Move`, `FileInfo.CopyTo`, ...);
  - each method reports whether the call would throw.
- `Text` (text.dfy) holds `string.Trim`, `StreamReader.ReadLine`, `StreamWriter.WriteLine` and case-insensitive comparison.
- `Configuration` (configuration.dfy) holds what the JSON deserializer can make of `template_cfg.json`.
- `Placeholders` (placeholders.dfy) is the token scanner that stands in for the regular expression `\[\$([a-z0-9_-]+)\]`. It also holds `TemplateLoader.TryGetValue`, the per-line rewrite, and the per-file expansion.
- `PlaceholderExamples` (placeholder_examples.dfy) pins concrete lines down.
- `Mirroring` (mirroring.dfy) gives the filesystem after, and part way through, a recursive copy, with the step lemmas the copy loops are proved with.
- `TemplateLoading` (template_loader.dfy), `PresetLoading` (preset_loader.dfy) and `Restarting` (restart_watcher.dfy) are the three classes, with their loops as methods.

Every method that changes the filesystem is proved against functions of the state before
it. `MirrorDirs` and `MirrorFiles` give the state after a completed copy. `AsideDirs` and
`AsideFiles` give it after the old presets are set aside. `PreparedDirs` gives it after the
supervisor's start-up. The lemmas state what those functions mean.

Where the code and the design documents of the repository disagree, the model follows
the code:

- **A failed set-aside.** When deleting or renaming the old presets fails (the failure is
  caught), `TemplateLoader.Load` copies into the old presets folder, which still exists.
  The documents say a fresh one is used.
- **No presets folder is created.** `TemplateLoader` never creates the presets folder
  itself. Only `CreateSubdirectory` creates it, on the way to a sub-folder. So when the
  templates folder holds files but no sub-folder, the first `CopyFile` throws.
  `TemplateLoading.TemplateLoader.GeneratePresets` states this: the copy succeeds exactly
  when the templates folder has a sub-directory.
- **Rewriting is not idempotent.** A substituted value is not scanned again, and a value
  can itself be a token, or complete one with the text around it (`ValuesNotRescanned`,
  `ReplacementCompletesToken`).
- **An empty trigger file.** Its text is passed on as the preset, which gives the argument
  `--preset=""`. It does not mean "no preset".
- **`PresetLoader.UpdateFile` throws.** It would write back the text it read, but it first
  hands the pattern `^[\$([a-z0-9_-]+)]$` to `Regex.Matches`. .NET refuses to parse that
  pattern: the character class swallows the `(`, so the `)` closes no group.
  - The first file visited therefore throws, and no file is ever changed.
  - `PresetLoader.Load` completes only when the templates hold no file at all. Whatever
    the rename and the copy did stays in place when the update throws.
  - Because parsing fails first, the replacement callback, whose `TryGetValue` would throw
    on a key missing from the config, is never reached.

## Model

| member | source | states |
|---|---|---|
| Configuration.Parse | TemplateLoader.cs:54-55 | A malformed document is an exception, a `null` document becomes an empty dictionary, an object gives its entries |
| Text.Trim | RestartWatcher.cs:149 | The trimmed text is empty exactly when the input is all white space; otherwise it is the slice between the leading and the trailing white space, and starts and ends with non-white-space |
| Text.TrimIdempotent | RestartWatcher.cs:149 | Trimming a trimmed text changes nothing |
| Text.ReadLine | TemplateLoader.cs:74 | `null` exactly at the end of the text; otherwise the characters up to the first `\r` or `\n`, and a positive number of characters consumed |
| Text.ReadLineTerminated | TemplateLoader.cs:74 | A line followed by `\n`, `\r` or `\r\n` is read without its terminator, and reading resumes right after the terminator, `\r\n` counting as one |
| Text.LastLineUnterminated | TemplateLoader.cs:74 | A last line without a terminator is still read as one line |
| Text.LinesOfWriteLines | TemplateLoader.cs:74-79 | Lines written with `WriteLine` and read back with `ReadLine` are the same lines, in the same order, when none holds a line break |
| Placeholders.MatchAt | TemplateLoader.cs:9 | A match at the start of a text is `[$`, one or more of `a-z0-9_-` in either letter case, then `]` |
| Placeholders.MatchAtToken | TemplateLoader.cs:9 | Every token is matched at the start of a line, whatever follows it, and the match ends at its `]` |
| Placeholders.Scan | TemplateLoader.cs:75-76 | Every match found in a line carries a well-formed identifier |
| Placeholders.ScanRoundTrip | TemplateLoader.cs:75-76 | The pieces of a scanned line (text outside matches, and matches) put back together are the line |
| Placeholders.ScanToken | TemplateLoader.cs:75-76 | A token at the start of a line is one match, and scanning resumes right after it |
| Placeholders.ScanVerbatimPrefix | TemplateLoader.cs:75-76 | Text with no `[` holds no match and is kept character by character |
| Placeholders.TryGetValue | TemplateLoader.cs:82-108 | A non-empty config value is found; a config key with an empty value is not found and logs nothing; a key absent from the config is served by a non-empty environment variable when the fallback is on, and otherwise logs the environment or the config warning; found values are never empty |
| Placeholders.ConfigShadowsEnvironment | TemplateLoader.cs:84-91 | A key the config holds, even with an empty value, is resolved the same whatever the environment and the fallback flag |
| Placeholders.NoFallbackIgnoresEnvironment | TemplateLoader.cs:103-104 | With the fallback off, the environment plays no part |
| Placeholders.RewriteToken | TemplateLoader.cs:75-76 | A token at the start of a line becomes its replacement, and the rest of the line is rewritten independently |
| Placeholders.RewriteVerbatimPrefix | TemplateLoader.cs:75-76 | Text with no `[` is copied through unchanged, and the rest of the line is rewritten on its own |
| Placeholders.UnresolvedPiecesKept | TemplateLoader.cs:75-76 | Matches that fail to resolve are reproduced as the exact matched text |
| Placeholders.UnresolvedLineKept | TemplateLoader.cs:75-76 | A line none of whose matches resolves comes out unchanged |
| Placeholders.RewriteLineSingleLine | TemplateLoader.cs:75-78 | When no value holds a line break, a rewritten line is still one line |
| Placeholders.PieceWarnings | TemplateLoader.cs:101-104 | Every warning logged for a line names a placeholder matched in it |
| Placeholders.RewriteLines | TemplateLoader.cs:74-79 | One output line per input line, each the rewriting of the line at the same position |
| Placeholders.ExpandFirstLine | TemplateLoader.cs:74-79 | The copy writes the first line rewritten, with a line terminator, and then the copy of the unread rest |
| Placeholders.ExpandStep | TemplateLoader.cs:74-79 | One turn of the read/write loop: the written text grows by the next rewritten line and the unread text shrinks by that line |
| Placeholders.ExpandEmpty | TemplateLoader.cs:74 | An empty file is copied as an empty file |
| Placeholders.ExpandTextLines | TemplateLoader.cs:71-79 | Read back, the copied file has one line per template line, in order, each rewritten, when no value holds a line break |
| PlaceholderExamples.TokenRewritten | TemplateLoader.cs:75-76 | A lone token becomes its replacement |
| PlaceholderExamples.TokenAfterTextRewritten | TemplateLoader.cs:75-76 | Text before a token is kept and the token replaced |
| PlaceholderExamples.TokenPairRewritten | TemplateLoader.cs:75-76 | Two tokens with text between them are replaced independently |
| PlaceholderExamples.TwoTokensRewritten | TemplateLoader.cs:75-76 | Text, token, text, token: each token replaced, the text kept |
| PlaceholderExamples.TokenAfterTextWarned | TemplateLoader.cs:101-104 | Text before a token logs nothing; the token logs what its lookup logs |
| PlaceholderExamples.TokenPairWarned | TemplateLoader.cs:101-104 | Two tokens log their warnings in line order |
| PlaceholderExamples.TwoTokensWarned | TemplateLoader.cs:101-104 | Text, token, text, token logs the two tokens' warnings in order |
| PlaceholderExamples.SinglePlaceholderWarning | TemplateLoader.cs:101-104 | A token logs exactly the warning its lookup reports, or nothing |
| PlaceholderExamples.PortReplacedNameKept | TemplateLoader.cs:75-76 | With config `port = 9600` and no fallback, `Port: [$port], Name: [$name]` becomes `Port: 9600, Name: [$name]` |
| PlaceholderExamples.MissingNameWarned | TemplateLoader.cs:103-104 | ... and that line logs exactly one warning: config variable `name` not found |
| PlaceholderExamples.UpperCaseTokenNotFound | TemplateLoader.cs:84 | `[$PORT]` matches, but the lookup is case-sensitive, so config key `port` does not serve it: kept, with a warning |
| PlaceholderExamples.EmptyConfigValueKeepsToken | TemplateLoader.cs:84-91 | A config key with an empty value keeps the token and logs nothing, even with the fallback on and the variable set |
| PlaceholderExamples.EnvironmentFallback | TemplateLoader.cs:92-99 | A key absent from the config is served by the environment when the fallback is on |
| PlaceholderExamples.ValuesNotRescanned | TemplateLoader.cs:75-76 | A substituted value that is itself a token survives one pass, so a second pass changes the line again |
| PlaceholderExamples.RewriteUnmatched | TemplateLoader.cs:75-76 | A character at which no match starts is kept |
| PlaceholderExamples.TokenThenBracketRewritten | TemplateLoader.cs:75-76 | A token followed by `]` is replaced and the bracket kept |
| PlaceholderExamples.DollarTokenRewritten | TemplateLoader.cs:75-76 | A `$` before a token is kept |
| PlaceholderExamples.WrappedTokenRewritten | TemplateLoader.cs:75-76 | A token wrapped in `[$` and `]` is replaced and the wrapper kept: matches do not nest |
| PlaceholderExamples.ReplacementCompletesToken | TemplateLoader.cs:75-76 | `[$[$a]]` with `a = b` becomes `[$b]`, a token the input did not match |
| FileSystems.FileSystem.CreateDirectory | TemplateLoader.cs:43 | Creates the path and every missing ancestor; throws, changing nothing, when the path or an ancestor is a file |
| FileSystems.FileSystem.CreateFile | TemplateLoader.cs:72 | Opening a `StreamWriter` creates or truncates the file; throws when the parent is not a directory or the path is a directory |
| FileSystems.FileSystem.WriteAllText | PresetLoader.cs:66 | Creates or overwrites the file with the text; throws when the parent is not a directory or the path is a directory |
| FileSystems.FileSystem.AppendText | TemplateLoader.cs:78 | One write appends to the file's text and changes nothing else |
| FileSystems.FileSystem.CopyFile | PresetLoader.cs:56 | Copies the text to a new file; throws when the target exists or its parent is not a directory |
| FileSystems.FileSystem.ReadAllText | RestartWatcher.cs:96 | The file's text, or an exception when the path is not a file |
| FileSystems.FileSystem.DeleteFile | RestartWatcher.cs:104 | Removes the file; a missing file is no error, a directory is |
| FileSystems.FileSystem.DeleteTree | TemplateLoader.cs:31 | Removes the directory and everything under it; throws when the path is not a directory |
| FileSystems.FileSystem.MoveTree | TemplateLoader.cs:33 | Renames a file or directory, with everything under it, to a free name outside it; throws, changing nothing, otherwise |
| FileSystems.FileSystem.ChildDirectories | TemplateLoader.cs:63 | Exactly the names of the sub-directories |
| FileSystems.FileSystem.ChildFiles | TemplateLoader.cs:65 | Exactly the names of the files directly inside |
| FileSystems.FileSystem.NothingBelowMissing | TemplateLoader.cs:41 | Nothing lies under a path that does not exist |
| FileSystems.MoveKeepsWellFormed | TemplateLoader.cs:33 | A rename keeps the tree well formed |
| FileSystems.EntriesUnder | PresetLoader.cs:46 | Exactly the files at any depth under the folder |
| FileSystems.Pruned | TemplateLoader.cs:31 | What a recursive delete leaves: exactly the entries outside the folder |
| FileSystems.MovedSet | TemplateLoader.cs:33 | After a rename, an entry is either untouched outside the source or the image of one inside it |
| FileSystems.MovedMap | TemplateLoader.cs:33 | A renamed file keeps its text, and so does every file outside both names |
| Mirroring.AllImages | TemplateLoader.cs:62-67 | Exactly the paths under the target whose counterpart under the source is an entry |
| Mirroring.MirrorContents | TemplateLoader.cs:62-67 | After a completed copy, every directory and file under the source has an image at the same relative path under the target, each image holds its original's text carried over, and every other file keeps its text |
| Mirroring.WalkComplete | TemplateLoader.cs:62-67 | With every sub-directory walked and every file directly inside copied, the copy is complete |
| Mirroring.DirStep | TemplateLoader.cs:64 | Creating a sub-directory and walking into it adds the directories reached through it |
| Mirroring.FileStep | TemplateLoader.cs:64 | Walking into a sub-directory adds the images of the files reached through it |
| Mirroring.TopFileStep | TemplateLoader.cs:66 | Copying a file directly in the source adds exactly its image, and leaves the original alone |
| Mirroring.ImagesStep | TemplateLoader.cs:66 | Copying one more file adds exactly one image |
| Mirroring.WalkedThenTop | TemplateLoader.cs:63-66 | The sub-directories walked, then the direct files copied, make one copy |
| Mirroring.WalkLeavesSource | TemplateLoader.cs:62-67 | A copy into a target apart from the source leaves the source's subtree alone |
| Mirroring.WalkKeepsTopFiles | TemplateLoader.cs:63-65 | The files directly in the source are the same once its sub-directories are walked |
| Mirroring.WalkedStaysInside | TemplateLoader.cs:62-67 | A copy, however far it got, changes nothing outside the target and its ancestors |
| Mirroring.ClearWalkOutcome | TemplateLoader.cs:63-66 | Into a clear target, the target exists after the sub-directories are walked exactly when it did before or there was one, and no direct file's image is in the way |
| Mirroring.TopFileFree | TemplateLoader.cs:65-66 | Into a clear target, a direct file's image is neither a file nor a directory once the sub-directories are walked |
| Mirroring.ClearAfterCreate | TemplateLoader.cs:64 | A sub-directory just created in a clear target is clear itself |
| Mirroring.ChildSubtreeShrinks | TemplateLoader.cs:64 | The recursion terminates: a sub-directory's subtree is smaller, whatever the copy created meanwhile |
| TemplateLoading.TemplateLoader.constructor | TemplateLoader.cs:16-22 | The presets and templates folders sit in the base path, and no config is read yet |
| TemplateLoading.TemplateLoader.SetAsideOldPresets | TemplateLoader.cs:26-39 | An existing presets folder is deleted or renamed to `presets<stamp>`; a failure changes nothing |
| TemplateLoading.TemplateLoader.AsideKeepsTemplates | TemplateLoader.cs:26-39 | Setting the presets aside leaves the templates, their contents and their ancestors alone |
| TemplateLoading.TemplateLoader.AsideKeepsTemplateTree | TemplateLoader.cs:26-46 | ... so the templates folder, its config and its direct entries look the same afterwards |
| TemplateLoading.TemplateLoader.AsideClearsPresets | TemplateLoader.cs:26-39 | When setting aside works, or there was nothing to set aside, nothing is left at or under the presets path |
| TemplateLoading.TemplateLoader.Load | TemplateLoader.cs:24-60 | The two early returns happen exactly when the templates folder is missing or its config is missing; after the first the templates folder has been created, after the second nothing has changed beyond setting the old presets aside; a config that is a directory or malformed throws with nothing copied; any other exception leaves everything outside the presets folder as set aside; a completed run has read the config and mirrored the templates, expanded, into the presets folder after setting the old one aside; and, unless a set-aside failed, it completes exactly when the templates folder has a sub-directory |
| TemplateLoading.TemplateLoader.GeneratePresets | TemplateLoader.cs:57-58 | Unless setting aside an existing presets folder failed, the copy succeeds exactly when the templates folder has a sub-directory; on success the presets folder mirrors the templates, expanded; success or not, nothing outside the presets folder changes |
| TemplateLoading.TemplateLoader.CopyFile | TemplateLoader.cs:69-80 | Writes the source file's expansion to the target file, replacing any earlier file; throws, changing nothing, when the target folder is missing or the target is a directory |
| TemplateLoading.TemplateLoader.CopyFilesRecursively | TemplateLoader.cs:62-67 | Stays inside the target; on success the target mirrors the source with every file expanded; into a clear target it fails exactly when the source has files directly inside but neither sub-directories nor an existing target |
| TemplateLoading.TemplateLoader.CopySubdirectories | TemplateLoader.cs:63-64 | Each sub-directory is created under the target and walked; into a clear target this never throws |
| TemplateLoading.TemplateLoader.WalkSubdirectory | TemplateLoader.cs:64 | One sub-directory is created and walked; the state moves from one walked set to the next |
| TemplateLoading.TemplateLoader.CopyDirectFiles | TemplateLoader.cs:65-66 | Every file directly in the source is copied, expanded; succeeds exactly when there is none or the target exists and no image is a directory |
| TemplateLoading.TemplateLoader.CopyEachFile | TemplateLoader.cs:65-66 | The loop copies all the given files exactly when there is none or the target exists and none of their images is a directory |
| TemplateLoading.TemplateLoader.CopyDirectFile | TemplateLoader.cs:66 | One file is copied, expanded, exactly when the target exists and the image is not a directory |
| PresetLoading.PresetPatternRejected | PresetLoader.cs:9 | The old loader's pattern does not parse: its `)` closes no group |
| PresetLoading.TemplatePatternAccepted | TemplateLoader.cs:9 | The template loader's pattern parses |
| PresetLoading.TryGetValue | PresetLoader.cs:69-93 | With the environment on, only a non-empty variable is found; with it off, a missing key or a missing config throws, and a non-empty value is found |
| PresetLoading.EnvironmentOnly | PresetLoader.cs:71-81 | With the environment on the config is never consulted, and an unset variable is not found even when the config holds a value |
| PresetLoading.ConfigOnly | PresetLoader.cs:84-92 | With the environment off the environment plays no part, and a key the config holds is not found exactly when its value is empty |
| PresetLoading.ResolutionOrdersDiffer | PresetLoader.cs:71-78 | When both config and environment hold a key, the old loader takes the environment's value and the template loader the config's |
| PresetLoading.ResolutionsWithoutEnvironment | PresetLoader.cs:84 | Without the environment the two loaders agree on every key the config holds; on a missing key the old one throws and the template loader warns |
| PresetLoading.CopyFilesRecursively | PresetLoader.cs:52-57 | Stays inside the target; on success the target mirrors the source verbatim; into a clear target it fails exactly when the source has files directly inside but neither sub-directories nor an existing target |
| PresetLoading.CopySubdirectories | PresetLoader.cs:53-54 | Each sub-directory is created under the target and walked; into a clear target this never throws |
| PresetLoading.WalkSubdirectory | PresetLoader.cs:54 | One sub-directory is created and walked; the state moves from one walked set to the next |
| PresetLoading.CopyDirectFiles | PresetLoader.cs:55-56 | Every file directly in the source is copied verbatim; succeeds exactly when there is none or the target exists and no image exists yet |
| PresetLoading.CopyEachFile | PresetLoader.cs:55-56 | The loop copies all the given files exactly when there is none or the target exists and none of their images exists |
| PresetLoading.CopyDirectFile | PresetLoader.cs:56 | `CopyTo` succeeds exactly when the target exists and the image does not |
| PresetLoading.PresetLoader.constructor | PresetLoader.cs:15-30 | For a templates path given as a sequence of names (no trailing separator), the presets folder is beside the templates folder (none when the templates folder is the root); the config is read exactly when `template_cfg.json` exists, a `null` document giving an empty dictionary |
| PresetLoading.PresetLoader.UpdateFile | PresetLoader.cs:59-67 | The file's text never changes; the call throws when the file is missing or the loader's pattern does not parse |
| PresetLoading.PresetLoader.UpdatePresets | PresetLoader.cs:44-50 | No file changes; throws when the folder is missing, or when it holds a file and the loader's pattern does not parse |
| PresetLoading.PresetLoader.Load | PresetLoader.cs:32-42 | Without a presets path, or with a presets folder that cannot be renamed, the run throws with nothing changed; otherwise the old presets are renamed and the copy fails exactly when the templates folder is missing, or holds files but no sub-directory, leaving everything outside the presets folder as renamed; once the copy is done the presets folder mirrors the templates verbatim whether the update then throws or not; the update completes exactly when the presets folder exists and holds no file, which needs templates with no file |
| PresetLoading.PresetLoader.MovedAsideClearsPresets | PresetLoader.cs:34-39 | With the templates folder present after the rename, the presets path is clear for the copy: no ancestor is a file and nothing lies under it |
| PresetLoading.PresetLoader.MoveAside | PresetLoader.cs:34-37 | An existing presets folder (or file) is renamed to `presets<stamp>`; the rename throws, changing nothing, when it cannot be done |
| PresetLoading.PresetLoader.PresetsGone | PresetLoader.cs:34-37 | After the rename nothing is left at the presets path |
| PresetLoading.PresetLoader.TemplatesBesidePresets | PresetLoader.cs:19-22 | For a templates path without a trailing separator, the templates and presets folders are siblings, so one never lies inside the other |
| PresetLoading.PresetLoader.TemplatesHeldNoFile | PresetLoader.cs:39-41 | When the update finds no file to visit, the templates held none |
| PresetLoading.PresetLoader.TemplateFileCopied | PresetLoader.cs:39 | Every template file has an image under the presets folder after the copy |
| Restarting.ExecutableIn | RestartWatcher.cs:18-27 | `AssettoServer.exe` whenever it exists, otherwise `AssettoServer` whenever that exists, and `""` exactly when neither exists; no other name is ever returned |
| Restarting.Arguments | RestartWatcher.cs:149 | The argument string is empty exactly when no preset is given |
| Restarting.ArgumentsRoundTrip | RestartWatcher.cs:149 | The preset read back out of the arguments is the trimmed preset |
| Restarting.ArgumentsIdentifyPreset | RestartWatcher.cs:149 | Two presets give the same arguments exactly when they agree once trimmed |
| Restarting.RestartRequests | RestartWatcher.cs:88-89 | A file in a folder named `restart`, in any letter case, is a request; a file of the root is not |
| Restarting.Recover | RestartWatcher.cs:115-145 | The recovery takes at most 120 rounds, and ends early only with the folder there and the watcher listening |
| Restarting.RecoverStopsAtFirstChance | RestartWatcher.cs:117-120 | The recovery stops at the first round in which the folder is there and the watcher is listening, and runs all 120 rounds when there is none |
| Restarting.LostFolderExhaustsRounds | RestartWatcher.cs:117-128 | While the folder stays away, all 120 rounds are used and the watcher ends disabled |
| Restarting.SteadyFolderRecoversAtOnce | RestartWatcher.cs:117-136 | When the folder is there and the watcher can be re-created, one round suffices and the watcher ends listening |
| Restarting.InboxDirs | RestartWatcher.cs:35-40 | Exactly the `restart` folders of those presets that have no `restart` entry |
| Restarting.InboxStep | RestartWatcher.cs:37-39 | One preset gets a `restart` folder unless it has a `restart` entry |
| Restarting.BaseDirsReady | RestartWatcher.cs:31-34 | After `cfg/restart` and `presets` are created where missing, both exist and no preset was added |
| Restarting.PreparedDirsReady | RestartWatcher.cs:31-40 | After the preparation nothing was removed, `cfg/restart` and `presets` exist, the presets are those found before, and each has a `restart` entry |
| Restarting.Process.constructor | RestartWatcher.cs:160-162 | A started process runs, with the given executable, arguments and working directory |
| Restarting.Process.Kill | RestartWatcher.cs:171 | One kill brings the process one request closer to exiting |
| Restarting.Watcher.constructor | RestartWatcher.cs:67-74 | A new watcher on the path, not yet raising events |
| Restarting.RestartWatcher.constructor | RestartWatcher.cs:13-63 | Without an executable nothing is created or started; otherwise `cfg/restart`, `presets` and the inboxes are prepared, and a server is started on one of the presets found, under a new listening watcher, exactly when there is a preset; at most one server runs |
| Restarting.RestartWatcher.StartUp | RestartWatcher.cs:31-62 | The directories are prepared, then a server starts and a watcher listens exactly when a preset exists |
| Restarting.RestartWatcher.StartFirstServer | RestartWatcher.cs:42-59 | No preset: nothing started and the process stays null; otherwise a server on one of the presets, and a listening watcher on the base path |
| Restarting.RestartWatcher.PrepareDirectories | RestartWatcher.cs:31-40 | Creates `cfg/restart`, `presets` and every preset's `restart` folder where nothing of that name exists, and nothing else |
| Restarting.RestartWatcher.AddInboxes | RestartWatcher.cs:35-40 | Adds exactly the missing `restart` folders of the presets |
| Restarting.RestartWatcher.CreateIfMissing | RestartWatcher.cs:31-34 | A path that does not exist is created with its ancestors; an existing one is left alone |
| Restarting.RestartWatcher.AddInbox | RestartWatcher.cs:37-39 | One preset's `restart` folder is created when nothing of that name is there |
| Restarting.RestartWatcher.RandomPreset | RestartWatcher.cs:184-192 | `null` exactly when the presets folder has no sub-directory; otherwise the name of one of them |
| Restarting.RestartWatcher.StartAssettoServer | RestartWatcher.cs:147-165 | A new running process of the executable, in the base path, with the preset's arguments |
| Restarting.RestartWatcher.StopAssettoServer | RestartWatcher.cs:167-174 | Returns only once the process has exited |
| Restarting.RestartWatcher.StartWatcher | RestartWatcher.cs:65-84 | A new watcher on the path that raises events |
| Restarting.RestartWatcher.OnRestartFileCreated | RestartWatcher.cs:86-105 | A file outside a `restart` folder changes nothing; otherwise the old server has exited first, an unreadable file ends there, and a readable one starts a new current server on its text, running the executable found at start-up in the base folder, and is then deleted; at most one server runs throughout |
| Restarting.RestartWatcher.StopCurrentServer | RestartWatcher.cs:93-94 | Afterwards no server started so far runs |
| Restarting.RestartWatcher.LaunchServer | RestartWatcher.cs:100 | The new server becomes the current one, running the executable found at start-up in the base folder, on the preset |
| Restarting.RestartWatcher.NotAccessibleError | RestartWatcher.cs:115-145 | The loop ends where `Recover` says, and the watcher it holds then is the old one or a new one on the same path |
| Restarting.RestartWatcher.Exit | RestartWatcher.cs:176-182 | Faults exactly when there is no current process; otherwise no server started so far runs |
| Restarting.RestartWatcher.ExitSafely | RestartWatcher.cs:176-182 | With the null check, afterwards no server started so far runs |
| Restarting.ExitWithoutExecutable | RestartWatcher.cs:29 | A supervisor built where no executable exists faults on `Exit` |

## Left out

- Logging (Serilog and the console) is left out. The warnings of `TemplateLoader.TryGetValue` are kept as values, and the other messages are not modelled.
- `Thread.Sleep` delays are not modelled: they change no state the model keeps.
- The clock is not modelled. The backup-name suffix is the parameter `stamp`, and its `yyyyMMdd` or `yyyyMMdd-HHmmss` format is not checked.
- JSON decoding is the parameter `decode`. Only its three possible outcomes are modelled: a malformed document, `null`, or an object.
- The process environment is a map. Windows' case-insensitive variable names are not modelled.
- Only ASCII letters are case-folded, both for the `restart` folder check and for the pattern's `IgnoreCase`.
- `ReadLine` recognises `\r`, `\n` and `\r\n`. `WriteLine` writes `\n`, standing for the platform's terminator.
- PresetLoading.PresetLoader.UpdateFile: models only the parse of the loader's own pattern. The matching, and the `Regex.Replace` callback, whose `TryGetValue` throws on a key missing from the config, are not modelled, since the parse throws before either runs.
- General .NET regular expressions are not modelled. They are replaced by a scanner for the one pattern, and by a check of the group structure of the other.
- Process mechanics are abstract. `Process.Start` gives a running process. `Kill` and `HasExited` act on a count of kill requests the process still needs, a count the program never learns.
- Restarting.RestartWatcher.StopAssettoServer: does not bound the number of kills, because the source has no retry cap.
- `FileSystemWatcher` configuration is not modelled: the `*.asrestart` filter, the notify filters, sub-directories, and `BeginInit`/`EndInit`. Events are method calls, and the name filter is left to the caller.
- `OnError` only logs and calls `NotAccessibleError`, so it is not modelled separately.
- Restarting.RestartWatcher.NotAccessibleError: whether the watched folder exists, and whether re-creating the watcher throws, are inputs given per round. It does not model the watcher's own exceptions after disposal.
- Restarting.RestartWatcher.NotAccessibleError: like the source, it does not update the supervisor's watcher field.
- Concurrency is not modelled. Watcher events run one at a time, with no lock, as the code has none.
- Enumeration order is not modelled. `GetDirectories`, `GetFiles` and `EnumerateFiles` are taken in an arbitrary order, by choosing any remaining element.
- `Random.Shared` is an arbitrary choice among the presets, so no distribution is claimed.
- Restarting.RestartWatcher.constructor: requires that `cfg` and `presets` are not files when an executable exists, where the source would throw from `Directory.CreateDirectory`.
- Restarting.RestartWatcher.constructor: the base path is a parameter standing for `Environment.CurrentDirectory`.
- PresetLoading.PresetLoader.constructor: paths are normalised sequences of names, so a templates path ending in a separator is not modelled. For such a path `Directory.GetParent` gives the templates folder itself, which puts the presets folder inside the templates folder, and `Load` would then copy the templates into a sub-folder of themselves.
- Byte-level file contents are not modelled. A file's text is what `StreamReader` decodes, so two differences are invisible: `TemplateLoader.CopyFile` writes UTF-8 without a byte-order mark while `FileInfo.CopyTo` copies the bytes, and `File.ReadAllText` in `OnRestartFileCreated` drops a byte-order mark.
- PresetLoading.PresetLoader.constructor: requires that an existing `template_cfg.json` is a readable file holding well-formed JSON, where the source would throw.
- A read failure on the template file inside `CopyFile` is not modelled: the file was just listed by `GetFiles`.
- Symbolic links, permissions and file attributes are not modelled.
- `Dispose` methods are not modelled: they are empty.
- Program.cs, the entry point, is not part of this model.
- The container files and the server plugins are not part of this model.

## Findings

| source | as written | input that shows it | evidently intended | confidence | as-written member | corrected member |
|---|---|---|---|---|---|---|
| RestartWatcher.cs:176-182 | `Exit` calls `StopAssettoServer(_currentProcess!)`, and `_currentProcess` is null whenever the constructor returned before starting a server | a base folder with neither `AssettoServer.exe` nor `AssettoServer` (or with no preset folder), followed by `Exit` | stop the server only when there is one, as `OnRestartFileCreated` does at lines 93-94 | medium, not executed | Restarting.ExitWithoutExecutable | Restarting.RestartWatcher.ExitSafely |
