# A verified model of `build.py`

`build.py` is a minimal build orchestrator. It reads a build file of `key=value` lines
(`prog=`, `src=`, `bin=`, `file=`, `option=`). It picks a C++ compiler for the platform.
Then, for each declared program in declaration order, it:

- creates the program's binary directory;
- checks the source directory and the listed source files;
- turns the `;`-separated options into one argument;
- runs `compiler sources… -g -o <bin>/<name>[.exe] <options>`.

The whole run stops with exit status 1 at the first program that fails.

The model has six modules:

- `Wrappers`: `Option`, `Result` and a map lookup.
- `Text`: `str.strip()`, `str.split()`, `str.split(c)` and `sep.join`, on ASCII whitespace as `str.isspace()` defines it.
- `BuildFile`: `load_bldfile`.
  - It is specified by a pure reader, `Load`, over the file's lines.
  - It is implemented by the loop method `LoadBuildFile`, which is proved equal to `Load`.
  - The lemmas pin down what each kind of line does, and that programs are listed in
    first-appearance order.
  - `LoadFailsIff` states exactly when loading fails: a field line comes before any
    `prog=` line.
- `Jobs`: the per-program helpers, as functions:
  - `get_binary_name`;
  - `validate_sources` (the filesystem is a value with its directory and file sets);
  - `validate_options`;
  - the compile command;
  - `detect_compiler`, over a `which` oracle.
- `Build`: `main`.
  - It is specified by `Orchestrate`.
  - `BuildOne` is one loop iteration. `BuildEach` is the loop, with early exit.
  - It is implemented by the methods `RunBuild`, `BuildPrograms` and `BuildProgram`, which
    are proved equal to that specification.
  - The lemmas cover the order of checks within one program (`ChecksInOrder`), that the compiler is run only after every check
    passes, that a failure stops the run, that a failure has one cause, and what a
    successful run has done.
- `Scenarios`: reading a build file that declares one program, and whole runs of `main`
  on any build file that loads as one program's record. They cover success, a missing
  option line, a missing source directory, and the binary name and compiler choice on
  Windows.

The run's surroundings are parameters of `Env`:

| Surrounding | Modelled as |
|---|---|
| `platform.system()` | `system` |
| `shutil.which` | `which` |
| `os.path.join` | `join` |
| whether `os.makedirs` succeeds | `canCreate` |
| whether the compiler exits with status 0 | `compiles` |

The outcome is a `Run`:

- the effects in order: `MakeDirs` and `Compile(command)`;
- the filesystem afterwards;
- `Success`, or `Failed(reason)` for every path that ends in `sys.exit(1)` or an uncaught
  exception.

Where the code's behaviour may be unexpected, the model follows the code:

- **A program without an `option=` line.** One might expect `option` to be optional. In
  the code, `validate_options(None)` raises `AttributeError`, so the run fails after the
  binary directory has been created. See `MissingOptions`, `NoOptionLineNeverBuilds` and
  `OneProgramWithoutOption`.
- **A field line before any `prog=` line.** In the code, `prog` is unbound, and the
  resulting `UnboundLocalError` is caught by `load_bldfile`'s `except Exception`, which
  exits with status 1. See `FieldBeforeProg` and `LoadFailsIff`.
- **A program without a `src=` line.** The code calls `os.path.isdir(None)`, which raises
  `TypeError`. See `SourceDirMissing`.
- **A non-comment line without `=`.** The code skips it silently, as it skips unknown
  keys, and so does the model.
- **The compiler on each platform.** On Linux and macOS `detect_compiler` returns the
  literal `g++`. On Windows it returns the path that `which` reported.

## Model

| member | source | states |
|---|---|---|
| Wrappers.Get | build.py:103-106 | `d.get(k)`: a value exactly when `k` is a key, and then the value stored under `k` |
| Text.IsWhite | build.py:35 | reference definition of the whitespace set of `strip()` and `split()`: the ASCII characters `str.isspace()` accepts (space, `\t`, `\n`, `\v`, `\f`, `\r` and U+001C to U+001F); build.py:75 uses the same set |
| Text.TrimStartSpec | build.py:35 | `lstrip()`: the result is a suffix of the input; everything cut off is whitespace, and the result does not start with whitespace |
| Text.TrimEndSpec | build.py:35 | `rstrip()`: the result is a prefix of the input; everything cut off is whitespace, and the result does not end with whitespace |
| Text.TrimEnds | build.py:35 | `strip()` leaves no whitespace at either end |
| Text.TrimSlice | build.py:35 | `strip()` leaves a slice of the input, starting where `lstrip()` stopped, with only whitespace outside it |
| Text.TrimKeepsTrimmed | build.py:35 | a line without whitespace at either end is left unchanged by `strip()` |
| Text.TrimStart | build.py:35 | reference definition of `lstrip()`: drops leading whitespace one character at a time; characterised by `TrimStartSpec` |
| Text.TrimEnd | build.py:35 | reference definition of `rstrip()`: drops trailing whitespace one character at a time; characterised by `TrimEndSpec` |
| Text.Trim | build.py:35 | reference definition of `strip()` as `rstrip()` after `lstrip()`; characterised by `TrimEnds` and `TrimSlice` |
| Text.TokenLength | build.py:75 | the length of the leading run of non-whitespace; it is maximal |
| Text.Words | build.py:75 | `files.split()`: every word is non-empty and contains no whitespace |
| Text.WordsOfWord | build.py:75 | a single word splits into exactly itself |
| Text.WordsKeepNonWhite | build.py:75 | the words, concatenated, are exactly the non-whitespace characters of the input, in order |
| Text.WordsSeparated | build.py:75 | a maximal run of non-whitespace, followed by whitespace or the end of the string, is split off as exactly one word, and the rest is split on its own |
| Text.WordsSkipWhite | build.py:75 | leading whitespace produces no word |
| Text.WordsOfWhite | build.py:75 | a string of whitespace only has no words |
| Text.IndexOf | build.py:39 | the first occurrence: the character is at that index and nowhere before it |
| Text.IndexOfUnique | build.py:39 | any index before which the character does not occur is the first occurrence |
| Text.SplitOn | build.py:82 | `options.split(';')`: there is at least one piece, and no piece contains the separator |
| Text.JoinWith | build.py:82 | reference definition of `sep.join(parts)` for a one-character separator: the parts with the separator between neighbours; `JoinSplitIsReplace` relates it to `SplitOn` |
| Text.JoinSplitIsReplace | build.py:82 | splitting at `a` and joining with `b` is the same as replacing every `a` by `b` |
| BuildFile.FieldNamed | build.py:43-50 | a recognised key maps to the field written with it; any other key names no field |
| BuildFile.KeyOf | build.py:39 | reference definition of the text before the first `=`; `SplitAtFirstEquals` and `SplitOfJoined` state its round trip with `ValueOf` |
| BuildFile.ValueOf | build.py:39 | reference definition of the text after the first `=`, later `=` included |
| BuildFile.ClassifyStripped | build.py:36-50 | reference definition of what a stripped line says: nothing for a blank line, a `#` line, a line without `=` or an unknown key; otherwise a declaration or a field entry; pinned down by `ProgLineExact`, `FieldLineExact` and `IgnoredLeavesState` |
| BuildFile.Classify | build.py:35-50 | reference definition: a raw line is stripped, then classified |
| BuildFile.AddProg | build.py:41 | reference definition of `progdic[value] = value` on an insertion-ordered dictionary; `DeclareKeepsOrder` and `ProgramOrder` state the order it keeps |
| BuildFile.Store | build.py:43-50 | reference definition of storing one field under the current program; `StepStores` states its frame |
| BuildFile.Step | build.py:38-50 | reference definition of one entry's effect on the reader state; `StepFails` and `StepSummary` characterise it |
| BuildFile.ParseLine | build.py:35-50 | reference definition of one raw line's effect: strip, classify, step |
| BuildFile.RunFrom | build.py:34-56 | reference definition of the scan over the lines, stopping at the first failure; `RunFromSnoc`, `FailureIsFinal` and `RunSummarises` are about it |
| BuildFile.Load | build.py:29-58 | reference definition of what `load_bldfile` returns; `LoadBuildFile` is proved equal to it, and `LoadFailsIff` and `ProgramOrder` characterise it |
| BuildFile.LoadBuildFile | build.py:29-58 | the loop that fills the dictionaries returns exactly what the reader `Load` specifies, including the failure at a field line before any `prog=` |
| BuildFile.SplitAtFirstEquals | build.py:39 | splitting at the first `=` loses nothing, and the key contains no `=` |
| BuildFile.SplitOfJoined | build.py:39 | `key=value`, for a key without `=`, splits back into that key and that value, even when the value contains `=` |
| BuildFile.ReadsAsProg | build.py:40-42 | the line `prog=v` is read as a declaration of `v` |
| BuildFile.ReadsAsField | build.py:43-50 | the line `<key>=w` is read as setting that field to `w` |
| BuildFile.ProgLineExact | build.py:38-42 | a stripped line declares program `v` if and only if it reads `prog=v` |
| BuildFile.FieldLineExact | build.py:38-50 | a stripped line sets field `f` to `w` if and only if it reads `<key of f>=w` |
| BuildFile.IgnoredLeavesState | build.py:36-38 | blank lines, `#` comments, lines without `=` and unknown keys leave the reader state unchanged |
| BuildFile.ProgLineDeclares | build.py:40-42 | `prog=N` makes `N` current and lists it once, at its first appearance; the field dictionaries are unchanged |
| BuildFile.StepStores | build.py:43-50 | a field entry is stored under the current program only; every other dictionary and the program list are unchanged |
| BuildFile.FieldLineStores | build.py:35-50 | the same, for a raw line that strips to `<key>=<value>` |
| BuildFile.FieldLineBeforeProgFails | build.py:43-44 | a field line while no program is current makes reading fail with that line |
| BuildFile.StepLastWins | build.py:43-50 | storing a field of the current program twice is the same as storing only the later value |
| BuildFile.LastWins | build.py:43-50 | the same, for two raw lines setting the same field |
| BuildFile.DeclareKeepsOrder | build.py:41 | inserting a name into the insertion-ordered program dictionary keeps the first-appearance order |
| BuildFile.StepSummary | build.py:38-50 | each entry keeps the reader-state summary true: programs in first-appearance order, the last declared one current, fields only for listed programs |
| BuildFile.StepFails | build.py:43-50 | one entry fails if and only if it is a field entry and no program is current |
| BuildFile.RunFromSnoc | build.py:34-50 | reading the lines then one more line is the same as reading that line from the state the others left |
| BuildFile.FailureIsFinal | build.py:54-56 | once reading has failed, the lines after the failure do not matter |
| BuildFile.RunSummarises | build.py:34-50 | after any successful read, the state summarises the `prog=` lines seen |
| BuildFile.ProgramOrder | build.py:40-42 | the returned programs are each declared name exactly once, in first-appearance order; every field entry belongs to a listed program |
| BuildFile.RunCurrent | build.py:42 | after a successful read, a program is current if and only if one was declared |
| BuildFile.FailsAtLast | build.py:43-44 | reading one more line fails there if and only if that line is a field line and no program was declared before it |
| BuildFile.LoadFailsOnlyBeforeProg | build.py:54-56 | reading fails only at a field line that comes before every `prog=` line |
| BuildFile.FieldBeforeProgFailsLoad | build.py:43-56 | a field line before every `prog=` line makes reading fail |
| BuildFile.LoadFailsIff | build.py:29-58 | loading fails if and only if some field line comes before every `prog=` line |
| Jobs.BinaryName | build.py:25-27 | the binary name is the program name, followed by exactly `.exe` on Windows and by nothing elsewhere |
| Jobs.BinaryNameInjective | build.py:25-27 | on one platform, distinct programs get distinct binary names |
| Jobs.IsDir | build.py:72 | reference definition of `os.path.isdir` on the modelled filesystem; the empty path is never a directory |
| Jobs.IsFile | build.py:75 | reference definition of `os.path.isfile` on the modelled filesystem; the empty path is never a file |
| Jobs.ExistingSources | build.py:75 | keeps at most the listed names, and only paths that are existing files |
| Jobs.ExistingSourcesAppend | build.py:75 | filtering a concatenation of names concatenates the filtered parts, so the listed order is kept |
| Jobs.ExistingSourcesExactly | build.py:75 | a path is kept if and only if it is an existing file and the join of the source directory with some listed name |
| Jobs.ValidateSources | build.py:70-79 | no source directory, a directory that does not exist, and no existing listed file are each an error; otherwise the result is the non-empty list of existing joined paths, all of them files |
| Jobs.ValidateOptions | build.py:81-82 | the same length; each `;` becomes a space and every other character is kept; no `;` is left; a string without `;` is unchanged |
| Jobs.ValidateOptionsExample | build.py:81-82 | `-Wall;-O2` becomes the single argument `-Wall -O2` |
| Jobs.CompileCommand | build.py:86 | the command has `|sources| + 5` arguments; the compiler, the sources, `-g -o`, the output and the options as one final argument can each be read back |
| Jobs.Found | build.py:12-18 | reference definition of the truthiness of a `shutil.which` result: a path that is present and non-empty |
| Jobs.DetectCompiler | build.py:7-23 | Linux and macOS give `g++` when `which` finds it; Windows gives `which`'s path for `g++`, else for `cl`; anything else is an unknown platform |
| Jobs.CompilerChoice | build.py:7-23 | a compiler is found if and only if the platform is known and `g++` is on the PATH, or the platform is Windows and `cl` is; the result is `g++` or a path `which` reported |
| Build.Created | build.py:65 | reference definition of the filesystem after a successful `os.makedirs(bindir)`: the binary directory is added |
| Build.BuildOne | build.py:102-123 | reference definition of one loop iteration, with its checks in source order; `CompileOnlyAfterChecks`, `SuccessMeansCompiled` and `BuildOneFileSystem` characterise it |
| Build.BuildEach | build.py:101-123 | reference definition of the loop, stopping at the first failure; `FailureStopsTheRun`, `FailureHasOneCause` and `SuccessCompilesEach` characterise it |
| Build.Orchestrate | build.py:96-123 | reference definition of `main`: load, detect the compiler, then the loop; `SetupFailuresDoNothing` and `SuccessfulRun` characterise it |
| Build.BuildProgram | build.py:102-123 | the loop body with its early returns (including `prepare_directories`, build.py:60-68) produces exactly the effects, filesystem and outcome of `BuildOne` |
| Build.BuildPrograms | build.py:101-123 | the loop over the programs, returning at the first failure, produces exactly `BuildEach` over the declared programs |
| Build.RunBuild | build.py:96-123 | `main`: loading, then compiler detection, then the loop, produces exactly `Orchestrate` |
| Build.CompileOnlyAfterChecks | build.py:108-123 | the compiler runs at most once per program, and only after every check passed; the command then has the detected compiler, the existing sources, `bin` joined with the binary name, and the normalised options |
| Build.SuccessMeansCompiled | build.py:84-94 | a program succeeds if and only if a command was issued and the compiler accepted it; a failure other than a failed compile issues no command |
| Build.FileListCheckedFirst | build.py:108-110 | without a non-empty file list, the program fails before any directory is created |
| Build.NoOptionLineNeverBuilds | build.py:106-120 | a program without an option line always fails and is never compiled; when its other entries are in order, it fails just after its binary directory is created |
| Build.ChecksInOrder | build.py:107-122 | each failure of one program is reported exactly when every earlier check passed and its own failed, in the order file list, binary directory present, binary directory created, sources, option line (the `CompileFailed` case after all of them) |
| Build.BuildOneFileSystem | build.py:60-68 | building a program adds at most its binary directory and touches no file; after a success the binary directory exists |
| Build.FailureStopsTheRun | build.py:101-123 | after a program fails, no later program is attempted |
| Build.SuccessContinues | build.py:101-123 | after programs that all succeeded, the run goes on with the next ones from the filesystem they left |
| Build.FailsAtFirst | build.py:101-123 | a failing first program is where the run fails |
| Build.FailsAtLater | build.py:101-123 | a success followed by a failure at `k` among the rest is a failure at `k + 1` |
| Build.FailureHasOneCause | build.py:101-123 | a failed run failed at some program `k`: every earlier one succeeded, and the run is theirs followed by that program's attempt |
| Build.EarlierFailureBlocks | build.py:101-123 | once program `j` fails, the programs up to any later index do not all succeed |
| Build.FailsAtUnique | build.py:101-123 | the program at which a run fails is unique: two failure indices are equal |
| Build.SuccessfulProgram | build.py:84-94 | a program that succeeded compiled once, into `join(bin, binary name)`, and left its binary directory in place |
| Build.CompiledEachCons | build.py:101 | one successful program followed by successful others together compiled each program once, in order |
| Build.SuccessCompilesEach | build.py:101-123 | a successful loop compiled every program exactly once, in order, each into `join(bin, binary name)`; it created every binary directory and touched no file |
| Build.NoSetupFailureLater | build.py:101-123 | the loop never reports a load or compiler-detection failure |
| Build.SetupFailuresDoNothing | build.py:98-99 | a load or compiler-detection failure creates and compiles nothing; the run fails to load if and only if a field line comes before every `prog=` line |
| Build.SuccessfulRun | build.py:96-123 | a run that ends with status 0 compiled every declared program exactly once, each name once, in first-appearance order |
| Scenarios.ProgramFileLoads | build.py:29-58 | a file that declares one program with its four or five entries loads as exactly that program's record, for values that do not end in whitespace (`strip()` would cut it off, as `src=foo ` loads `foo`) |
| Scenarios.RunsLoop | build.py:98-101 | once the file has loaded and a compiler was found, `main` is the loop over the declared programs |
| Scenarios.BuildsSingle | build.py:101 | the loop over one program is that program's attempt |
| Scenarios.RunsRecord | build.py:96-123 | when a compiler is found, `main` on a file that loads as one program's record is exactly that program's build |
| Scenarios.RecordBuilds | build.py:102-123 | building a one-program record whose file list and `bin` are non-empty, whose `bin` can be created and whose sources are valid creates the binary directory and compiles once; without options it fails before compiling |
| Scenarios.RecordMissingSourceDir | build.py:72-74 | a record whose file list and `bin` are non-empty and whose `bin` can be created, but whose source directory does not exist, fails with `SourceDirNotFound` right after `MakeDirs(bin)` |
| Scenarios.OneProgramRun | build.py:96-123 | on any file that loads as one program's record with options, when a compiler is found, the file list and `bin` are non-empty, `bin` can be created and the sources are valid: `MakeDirs(bin)`, then one compile of `[compiler] + sources + ["-g", "-o", join(bin, binary name), options]`; the compiler's exit status decides the outcome |
| Scenarios.OneProgramWithoutOption | build.py:106-120 | a file whose one program has no option line, when a compiler is found, the file list and `bin` are non-empty, `bin` can be created and the sources are valid, creates the binary directory, then fails without compiling |
| Scenarios.OneProgramMissingSourceDir | build.py:72-74 | when a compiler is found, the file list and `bin` are non-empty and `bin` can be created, a source directory that does not exist stops the run after `MakeDirs(bin)`, before anything is compiled |
| Scenarios.WindowsProgramRun | build.py:16-19 | on Windows with `g++` or `cl` on the PATH, and with the file list and `bin` non-empty, `bin` creatable and the sources valid, the output is `join(bin, name + ".exe")`, and the compiler is `which`'s path for `g++`, or for `cl` when there is no `g++` |

## Left out

- Printing: every message `build.py` prints is left out. Only the exit outcome and the effects are modelled.
- Reading the build file: the file is given as its sequence of lines.
  - The `FileNotFoundError` and read errors of `open` (build.py:51-56) are not modelled.
  - The default file name `Bldfile` is not modelled.
- `platform.system`, `shutil.which`, `os.path.join`, `os.makedirs` and `subprocess.run` are oracles in `Env`.
  - `os.makedirs` is modelled as adding just the binary directory. Its creation of parent directories is not modelled.
  - `canCreate` is a free oracle that ignores the filesystem. It may say `os.makedirs(d, exist_ok=True)` fails even where `d` already is a directory, which cannot happen (build.py:65). The model therefore admits some runs the program cannot have. Every lemma holds for any oracle, so none of them depends on this.
  - A compile is modelled as not changing the filesystem. The binary it writes is not added.
  - `subprocess.run` raising something other than `CalledProcessError` is not modelled. For example, a compiler path that cannot be executed gives an uncaught `FileNotFoundError`.
- Text: whitespace is the set of ASCII characters that Python's `str.isspace()` accepts, the separators U+001C to U+001F included. Python's non-ASCII whitespace (such as U+0085, U+00A0 and U+2028) is not modelled.
- Exit statuses: the distinction between `sys.exit(1)` and an uncaught exception, which also exits with status 1, is collapsed into `Failed`. The reason is kept in the `Failure` constructor.
- Jobs.DetectCompiler: Windows' `shutil.which("g++") or shutil.which("cl")` is modelled by truthiness (`Found`). An empty path counts as not found, as in Python.
