# Trends.Earth (LDMP) build tasks and file download, in Dafny

This project models two parts of the LDMP QGIS plugin:

- The paver build script `pavement.py`:
  - `read_requirements` splits `requirements.txt` into runtime and test requirements at the `# test requirements` divider.
  - `_make_zip` and its `filter_excludes` write the plugin source tree into a zip archive. They prune excluded files and directories while `os.walk` descends.
  - `package` adds the test directories to the excludes when its `tests` option is false, so the package is built with tests left out.
  - `autopep8` fixes up the argument list before it calls the formatter.
  - `file_changed` and the `compile_files` loops decide which `.ui` and resource files need recompiling. When `pyrcc4` is missing, `compile_files` raises `NameError`, because it calls `click.secho` without importing `click`.
- The downloader `LDMP/download.py`:
  - `DownloadWorker.work` streams a URL into a file, honouring a cancel flag and checking the final size.
  - `Download` runs a worker, records its result or exception through `save_resp`/`save_exception`, and maps the exception to a return value in `start`.
  - `check_hash_against_etag` compares a file's MD5 digest with the ETag header.

Each module follows one part of the source:

| module | models |
|---|---|
| `Wrappers` | `Option` and `Result` |
| `Lists` | Python's `list.index` and `list.remove` |
| `Strings` | Python's `str.strip` |
| `Requirements` | `read_requirements` |
| `Glob` | the `fnmatch` patterns used by the excludes |
| `PackageZip` | `filter_excludes`, `_make_zip`, `package` and the default plugin options |
| `CompileFiles` | `file_changed` and `compile_files` |
| `Autopep8` | the argument fix-up of the `autopep8` task |
| `Downloads` | `DownloadWorker.work`, `Download` and `check_hash_against_etag` |

State that the source updates in place is modelled with classes whose methods carry `modifies` clauses and are proved against specification functions:

- the list that `filter_excludes` prunes (`PackageZip.NameList`);
- the options that `package` extends (`PackageZip.Plugin`);
- the argument list of `autopep8` (`Autopep8.ArgList`);
- the files on disk (`Downloads.Disk`);
- the `Download` object (`Downloads.Download`).

Everything that depends on the outside world becomes a parameter:

- the lines of `requirements.txt`;
- the directory tree `os.walk` visits;
- file modification times;
- whether `pyuic4` and `pyrcc4` are on the PATH;
- the HTTP reply and its chunks;
- the moment the user presses cancel;
- the ETag header and the MD5 hex digest.

## Model

| member | source | states |
|---|---|---|
| Lists.IndexOf | pavement.py:93 | `list.index`: absent exactly when the item is not in the list; otherwise the position of its first occurrence |
| Lists.RemoveFirst | pavement.py:253 | `list.remove` of an item that is present shortens the list by exactly one |
| Lists.RemoveAfter | pavement.py:253 | `list.remove` takes out exactly the first occurrence of the item: the part before it, which lacks the item, and the part after it stay in order |
| Strings.TrimStart | pavement.py:89 | `lstrip` never lengthens the string, and what it returns is empty or starts with a character outside the strip set |
| Strings.TrimEnd | pavement.py:89 | `rstrip` never lengthens the string, and what it returns is empty or ends with a character outside the strip set |
| Strings.TrimStartCuts | pavement.py:89 | stripping the front leaves a suffix of the string, and every character removed is in the strip set |
| Strings.TrimEndCuts | pavement.py:89 | stripping the back leaves a prefix, and every character removed is in the strip set |
| Strings.Strip | pavement.py:89 | `str.strip` returns a string that neither starts nor ends with a strip character and is no longer than the input |
| Strings.StripPadded | pavement.py:89 | any padding of strip characters around a stripped string is removed exactly, giving back that string |
| Strings.StripIdempotent | pavement.py:89 | stripping twice is the same as stripping once |
| Strings.AllInStripsToEmpty | pavement.py:89 | a line made only of strip characters strips to the empty string, so it is dropped |
| Strings.StripKeepsFirst | LDMP/download.py:34 | stripping keeps a first character that is outside the strip set, so the stripped ETag starts where the header does |
| Strings.StripKeepsContent | pavement.py:89 | a line holding a character outside the strip set does not strip to the empty string |
| Requirements.CleanedLine | pavement.py:89 | one line is dropped exactly when it is all whitespace; otherwise it is kept, stripped and non-empty |
| Requirements.Cleaned | pavement.py:89 | no cleaned line is empty, so `l[0]` is defined for each |
| Requirements.CleanedStripped | pavement.py:89 | every cleaned line is stripped of surrounding whitespace |
| Requirements.CleanedContains | pavement.py:89 | a non-empty string is among the cleaned lines exactly when some raw line strips to it |
| Requirements.CleanedAppend | pavement.py:89 | cleaning distributes over concatenation, so line order is kept |
| Requirements.NonComments | pavement.py:98 | the `not_comments` filter never adds lines; which lines it keeps is stated by `Requirements.NonCommentsMembers` |
| Requirements.NonCommentsMembers | pavement.py:98 | a line survives the comment filter exactly when it was there and does not start with `#` |
| Requirements.NonCommentsAreRequirements | pavement.py:89-98 | filtering comments out of cleaned lines leaves only non-empty, stripped, non-comment lines |
| Requirements.NonCommentsAppend | pavement.py:98 | the comment filter distributes over concatenation |
| Requirements.ReadRequirements | pavement.py:86-99 | fails with the "Expected to find ..." build failure exactly when no line strips to the divider; otherwise both lists are stripped, non-blank and comment-free |
| Requirements.CleanedAround | pavement.py:89-93 | cleaning keeps a divider line in place between the cleaned lines before and after it |
| Requirements.DividerNotBefore | pavement.py:89-93 | no line before the first raw divider line cleans to the divider, so `index` finds that one |
| Requirements.SplitAtFirstDivider | pavement.py:86-99 | at the first divider line, the runtime list is the cleaned non-comment lines before it and the test list those after it; a later divider is treated as an ordinary comment |
| Glob.Matches | pavement.py:244 | `fnmatch` with `*` and `?`: a match against a pattern without `*` has exactly as many characters as the pattern; the lemmas below pin the patterns the excludes use |
| Glob.LiteralMatches | pavement.py:244 | a pattern without wildcards matches only the identical name |
| Glob.StarMatchesAll | pavement.py:244 | `*` matches every name |
| Glob.StarSuffixMatches | pavement.py:244 | `*.pyc`-style patterns match exactly the names ending in the literal suffix |
| Glob.PrefixStarMatches | pavement.py:244 | `coverage*`-style patterns match exactly the names starting with the literal prefix |
| PackageZip.Kept | pavement.py:249-253 | the names `filter_excludes` leaves are never more than it was given; which ones and in what order is stated by `PackageZip.KeptMembers` and `PackageZip.KeptAppend` |
| PackageZip.KeptMembers | pavement.py:249-253 | a name survives filtering exactly when it was present and is not both excluded and outside `skip_exclude` |
| PackageZip.KeptAppend | pavement.py:249-253 | filtering distributes over concatenation, so the kept names keep their order |
| PackageZip.KeptIdempotent | pavement.py:245-254 | filtering an already filtered list changes nothing |
| PackageZip.KeptStep | pavement.py:249-253 | one iteration keeps a kept name in place; a dropped name is the first occurrence after the names kept so far, so `remove` takes out that one |
| PackageZip.NameList.Remove | pavement.py:253 | removing from the list in place leaves the first occurrence taken out |
| PackageZip.FilterExcludes | pavement.py:245-254 | an empty list gives a new empty list; otherwise the same list object is returned, pruned in place to the kept names in their original order |
| PackageZip.RemoveIfDropped | pavement.py:249-253 | one iteration over the copy takes the dropped name out of the list in place and keeps the loop invariant |
| PackageZip.RemoveDropped | pavement.py:249-253 | the loop over a copy leaves the list holding exactly the kept names, in order |
| PackageZip.KeptDirs | pavement.py:260 | a subdirectory is still walked exactly when it was there and its name is not dropped |
| PackageZip.KeptDirsNames | pavement.py:256-260 | the subdirectories that `os.walk` still descends into are exactly the ones not dropped, in order |
| PackageZip.Archive | pavement.py:256-260 | the paths the `os.walk` loop writes for one directory: its kept files, then the walk of each kept subdirectory. It has no contract of its own; `PackageZip.ArchiveSound`, `PackageZip.ArchiveComplete` and `PackageZip.ArchivedUnder` state what it contains |
| PackageZip.ArchiveDirs | pavement.py:256-260 | the walk of the kept subdirectories, in order. It has no contract of its own; `PackageZip.ArchiveDirsSound` and `PackageZip.ArchiveDirsComplete` state what it contains |
| PackageZip.ArchivedUnder | pavement.py:256-260 | every archived path extends the walked directory, and no name below it is dropped |
| PackageZip.ArchiveSound | pavement.py:256-260 | every archived path is a file of the tree, and no component of it, directory or file name, is dropped by the excludes |
| PackageZip.FileSound | pavement.py:257-259 | a file written from one directory is a file of that directory with a kept name |
| PackageZip.SubdirSound | pavement.py:256-260 | a path archived from a kept subdirectory is a file of the tree, with every component kept |
| PackageZip.ArchiveComplete | pavement.py:256-260 | every file of the tree with no dropped component is archived |
| PackageZip.FileComplete | pavement.py:257-259 | every file of a directory with a kept name is written under that directory |
| PackageZip.Plugin.constructor | pavement.py:13-35 | the plugin options start with the seven default exclude patterns, `tests = ['test']` and an empty `skip_exclude` |
| PackageZip.Plugin.Package | pavement.py:132-140 | when the `tests` option is false the excludes are extended in place with the test directories, and the archive is the walk of `LDMP` under the resulting excludes |
| PackageZip.MatchExcludes | pavement.py:240-244 | a name matching any one of the exclude patterns is excluded |
| PackageZip.DefaultExcluded | pavement.py:23-31 | under the default options `test`, `.DS_Store`, `coverage*`, `nose*` and `*.pyc` names are excluded |
| PackageZip.KeptNotLeftOut | pavement.py:23-31 | a name the default excludes keep is not `test`, `.DS_Store`, `coverage*`, `nose*` or `*.pyc` |
| PackageZip.DefaultPackageLeavesOut | pavement.py:132-140 | in a package built with the default options and tests left out, every path lies under `LDMP`, and no component of it is `test`, `.DS_Store`, `coverage*`, `nose*` or `*.pyc` |
| CompileFiles.FileChanged | pavement.py:291-297 | a file is unchanged exactly when both files can be stat'ed and the input is not newer than the output |
| CompileFiles.Stale | pavement.py:310-321 | the files compiled are, in order, exactly the existing ones whose input changed |
| CompileFiles.CompileAll | pavement.py:299-322 | without the tool nothing is compiled; otherwise exactly the stale files are compiled and the count is their number |
| CompileFiles.CompileResources | pavement.py:324-346 | with `pyrcc4` found exactly the stale resource files are compiled. Without it the call to `click.secho` raises `NameError`, because `click` is never imported |
| CompileFiles.CompileFilesTask | pavement.py:299-346 | `compile_files` compiles the stale UI files, or none when `pyuic4` is missing, then compiles the stale resource files or raises `NameError` when `pyrcc4` is missing |
| CompileFiles.AfterCompile | pavement.py:314-316 | after the run, each stale file's output carries the time of the run, and every other file is unchanged |
| CompileFiles.CompileIsIdempotent | pavement.py:299-322 | when the clock is not behind any input, a second run right after the first compiles nothing |
| Autopep8.FixedArgsAsWritten | pavement.py:205-209 | as written: the name `dummy` goes in front, the ignore list at the end, and `-i` is added unless both `-i` and `--in-place` are present |
| Autopep8.AsWrittenRepeatsFlag | pavement.py:205-206 | for the arguments `['-i']` the code as written adds a second `-i`; the corrected version does not |
| Autopep8.GuardsDiffer | pavement.py:205 | the two guards differ exactly when one form of the in-place flag is given but not the other |
| Autopep8.FixedArgs | pavement.py:205-209 | the argument list starts with `dummy`, keeps the user's arguments in order, ends with the ignore list, always requests in-place editing, and gains `-i` only when neither flag was given |
| Autopep8.FixedArgsStable | pavement.py:205-209 | running the corrected fix-up again on its own user part adds nothing |
| Autopep8.ArgList.Append | pavement.py:206-208 | `append` adds the item at the end |
| Autopep8.ArgList.Prepend | pavement.py:209 | `insert(0, …)` adds the item at the front |
| Autopep8.FixUp | pavement.py:205-209 | the argument list is changed in place to the corrected fix-up of its old value |
| Downloads.Cut | LDMP/download.py:112-115 | the loop stops at the first chunk index where the cancel flag is set, or reads every chunk |
| Downloads.WorkSpec | LDMP/download.py:92-130 | `work` in closed form: the output file is touched only after a 200 reply with an integer Content-length and a successful streaming GET, and `True` means the file holds exactly Content-length bytes |
| Downloads.StreamSpec | LDMP/download.py:109-130 | once the file is opened it is always written or removed. `True` means it holds the chunks read before the cancel, Content-length bytes in all; a removed file goes with `None` or the size `DownloadError` |
| Downloads.RefusesNon200 | LDMP/download.py:96-99 | a reply whose status is not 200 raises `DownloadError` "Unable to start download of ..." and leaves the file untouched |
| Downloads.FirstNonEmpty | LDMP/download.py:116 | the first chunk that is not a keep-alive, or none when all are empty |
| Downloads.DownloadWorker.WriteChunks | LDMP/download.py:109-120 | the chunk loop writes the concatenation of the chunks read before the cancel, counts their bytes, and stops with a division by zero at the first non-empty chunk when the size is 0 |
| Downloads.DownloadWorker.WriteStream | LDMP/download.py:109-130 | the outcome and the file after the transfer are the ones the stream specification gives |
| Downloads.DownloadWorker.Work | LDMP/download.py:92-130 | the outcome and the disk match the work specification: a `DownloadError` for a status other than 200, `KeyError`/`ValueError` for a missing or non-integer Content-length, and the stream's own exception. Otherwise a removed file and `None` or a `DownloadError` on a size mismatch, and `True` with the file written |
| Downloads.ByteCountIsLength | LDMP/download.py:116-118 | the byte counter equals the number of bytes written |
| Downloads.KilledChunksNotWritten | LDMP/download.py:112-118 | a file left behind holds only chunks received before the cancel was seen |
| Downloads.OutcomeBySize | LDMP/download.py:122-130 | after a clean transfer `work` succeeds exactly when the byte count equals Content-length. On a mismatch the file is removed, and the result is `None` when cancelled and a `DownloadError` otherwise |
| Downloads.BrokenStreamKeepsPartialFile | LDMP/download.py:111-120 | a stream that breaks raises its exception and leaves the partly written file on disk |
| Downloads.StartResultFor | LDMP/download.py:150-176 | `start` returns True exactly when no exception was recorded, and False exactly for the four handled kinds. Any other exception propagates unchanged |
| Downloads.Download.constructor | LDMP/download.py:134-138 | a new download has neither response nor exception recorded |
| Downloads.Download.SaveResp | LDMP/download.py:178-179 | the response is recorded |
| Downloads.Download.GetResp | LDMP/download.py:181-182 | the recorded response is returned |
| Downloads.Download.SaveException | LDMP/download.py:184-185 | the exception is recorded |
| Downloads.Download.GetException | LDMP/download.py:187-188 | the recorded exception is returned |
| Downloads.Download.Start | LDMP/download.py:140-176 | the worker's effect on disk is applied, success or exception is recorded, and the result is the mapping of the recorded exception. An exception recorded by an earlier run means `start` never again returns True |
| Downloads.Quotes | LDMP/download.py:34 | a run of `n` double quotes |
| Downloads.ExpectedHash | LDMP/download.py:34 | the expected digest carries no double quote at either end, and is empty when there is no ETag header |
| Downloads.HashVerified | LDMP/download.py:32-43 | `check_hash_against_etag` returns True only for a digest with no double quote at either end, the one `ExpectedHash` gives |
| Downloads.QuotedDigestVerifies | LDMP/download.py:32-43 | a digest wrapped in any number of double quotes on either side verifies |
| Downloads.VerifiedMeansQuoted | LDMP/download.py:32-43 | a verified ETag is the digest with only double quotes around it |
| Downloads.MissingEtagRejects | LDMP/download.py:34-43 | without an ETag header no non-empty digest verifies |
| Downloads.WeakEtagRejects | LDMP/download.py:34-43 | a weak ETag `W/"<md5>"` never verifies, because only the quotes are stripped |

## Left out

- `LDMP/ldmp.py`, the `DlgDownload` dialog and every Qt signal, progress bar, message box and log line: they are user interface with no effect on the modelled results. `LDMP/ldmp.py` is not part of this model.
- `LDMP/worker.py` is not part of this model. `Downloads.Download.Start` assumes that a worker result of `True` reaches `save_resp`, that an exception reaches `save_exception`, and that `None` reaches neither; `finished` is taken to fire once `work` ends.
- Threading: `start` waits on a Qt event loop for the worker thread. The model runs the worker to completion inside `Start`, and the user's cancel is a parameter giving the chunk index from which `killed` reads true.
- The progress percentage and the human-readable size (floating point) are left out. Only the `ZeroDivisionError` the percentage raises when Content-length is 0 is kept.
- `requests`, the network and `get_header` are left out. The replies, chunks, exceptions and ETag header are inputs. A `ConnectTimeout`, which is both a connection error and a timeout, is handled the same way either way.
- `hashlib.md5` and reading the file are left out. The hex digest is an input to the ETag check.
- `read_json` and `get_admin_bounds` (LDMP/download.py:46-76) are left out entirely: the cache lookup, the hash check followed by removal of the file, the new `Download` it starts, the `get_resp` test, the second hash check, and the gzip and JSON decoding.
- `check_path` is modelled only through its result, a boolean saying whether the tool was found. `PATH` and `PATHEXT` lookups are not modelled.
- `subprocess.check_call` is left out. Compiling is assumed to succeed, and a failing compiler is not modelled.
- The rest of `pavement.py` is left out: `rmtree`, `setup`, `install`, `install3`, `_install`, `deploy`, `pep8`, `pylint`, `install_devtools`, `installdev`, the `html` task imported from `paver.doctools`, and the S3 upload. They are shell and network tasks outside the modelled core.
- `compile_files`: the two loops share `CompileFiles.CompileAll`. The missing-`pyrcc4` branch is modelled by `CompileFiles.CompileResources` as the `NameError` it raises. Output names built with `splitext` and the glob over `*.ui` are represented by the list of files given.
- `Glob.Matches`: it is case-sensitive POSIX matching with `*` and `?`. The bracket classes `[...]` are not modelled, because no exclude pattern uses them. `fnmatch` applies `os.path.normcase` to every name and pattern, so on Windows it ignores case: there `Foo.PYC` matches `*.pyc`, but `Glob.Matches` says it does not.
- `Strings.Strip`: the whitespace set is the ASCII one (space, tab, newline, carriage return, vertical tab, form feed). Python 3 also strips the other Unicode whitespace characters.
- `PackageZip.FilterExcludes`: the `root` argument is used only for the debug message and is dropped.
- `os.walk` is modelled as a recursion over a finite tree value. The file system, symbolic links and the errors `os.walk` swallows are not modelled.
- `PackageZip.Plugin.Package`: the zip file itself is modelled as the list of archived paths. Compression and the `.zip` name are left out.
- `PackageZip.Plugin.Package`: the parameter `packageTests` stands for the truthiness of `getattr(options, 'tests', False)` (pavement.py:134). Paver's option search, which tries the task's own section first and then the others, is not modelled. It may resolve `tests` to `options.plugin.tests`, the non-empty list `['test']`, when `-t` is not given, and then the test directories are not excluded. The lemmas about default packages assume the lookup gives a false value.
- `Downloads.Disk`: the file contents are the bytes written. A failure to open or remove the file is not modelled.

## Findings

| source | as written | input that shows it | evidently intended | confidence | as-written member | corrected member |
|---|---|---|---|---|---|---|
| pavement.py:205 | `any(x not in args for x in ['-i', '--in-place'])` appends `-i` unless both `-i` and `--in-place` are already present | the arguments `['-i']`, which become `['dummy', '-i', '-i', '--ignore=E261,E265,E402,E501']` | append `-i` only when neither flag is present (`all(...)`) | not executed | Autopep8.FixedArgsAsWritten | Autopep8.FixedArgs |
