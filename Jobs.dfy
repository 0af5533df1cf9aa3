/** The per-program pieces `main` uses: the binary name, source and option validation,
    the compile command and the choice of compiler. */
module Jobs {
  import opened Wrappers
  import opened Text

  /** The filesystem as the run sees it: the existing directories and the existing files. */
  datatype FileSystem = FileSystem(dirs: set<string>, files: set<string>)

  /** `os.path.isdir`: the empty path never names a directory. */
  predicate IsDir(fs: FileSystem, path: string) {
    path != "" && path in fs.dirs
  }

  /** `os.path.isfile`: the empty path never names a file. */
  predicate IsFile(fs: FileSystem, path: string) {
    path != "" && path in fs.files
  }

  /** `get_binary_name`: the program name, with `.exe` appended when `platform.system()`
      is `"Windows"`. */
  function BinaryName(system: string, prog: string): (r: string)
    ensures |r| >= |prog| && r[..|prog|] == prog
    ensures system == "Windows" ==> r[|prog|..] == ".exe"
    ensures system != "Windows" ==> |r| == |prog|
  {
    if system == "Windows" then prog + ".exe" else prog
  }

  /** On one platform, distinct programs get distinct binary names. */
  lemma BinaryNameInjective(system: string, a: string, b: string)
    requires BinaryName(system, a) == BinaryName(system, b)
    ensures a == b
  {
    var r := BinaryName(system, a);
    assert |a| == |b|;
    assert a == r[..|a|] == b;
  }

  /** The list comprehension of `validate_sources`: `join(srcdir, f)` for each listed name `f`
      whose joined path is an existing file, in listed order. */
  function ExistingSources(join: (string, string) -> string, fs: FileSystem, srcdir: string, names: seq<string>): (r: seq<string>)
    ensures |r| <= |names|
    ensures forall x :: x in r ==> IsFile(fs, x)
  {
    if names == [] then []
    else
      var path := join(srcdir, names[0]);
      (if IsFile(fs, path) then [path] else []) + ExistingSources(join, fs, srcdir, names[1..])
  }

  /** The comprehension keeps the listed order: filtering a concatenation concatenates the filtered parts. */
  lemma {:induction false} ExistingSourcesAppend(join: (string, string) -> string, fs: FileSystem, srcdir: string, a: seq<string>, b: seq<string>)
    ensures ExistingSources(join, fs, srcdir, a + b) == ExistingSources(join, fs, srcdir, a) + ExistingSources(join, fs, srcdir, b)
    decreases |a|
  {
    if a == [] {
      assert a + b == b;
    } else {
      assert (a + b)[0] == a[0] && (a + b)[1..] == a[1..] + b;
      ExistingSourcesAppend(join, fs, srcdir, a[1..], b);
    }
  }

  /** A path is kept exactly when it is the join of some listed name and is an existing file. */
  lemma {:induction false} ExistingSourcesExactly(join: (string, string) -> string, fs: FileSystem, srcdir: string, names: seq<string>, x: string)
    ensures x in ExistingSources(join, fs, srcdir, names) <==>
      IsFile(fs, x) && exists i :: 0 <= i < |names| && x == join(srcdir, names[i])
    decreases |names|
  {
    if names != [] {
      ExistingSourcesExactly(join, fs, srcdir, names[1..], x);
      if exists i :: 0 <= i < |names| && x == join(srcdir, names[i]) {
        var i :| 0 <= i < |names| && x == join(srcdir, names[i]);
        if i > 0 {
          assert x == join(srcdir, names[1..][i - 1]);
        }
      }
      if exists i :: 0 <= i < |names[1..]| && x == join(srcdir, names[1..][i]) {
        var i :| 0 <= i < |names[1..]| && x == join(srcdir, names[1..][i]);
        assert x == join(srcdir, names[i + 1]);
      }
    }
  }

  /** Why `validate_sources` stops the run. `SourceDirMissing` stands for the `TypeError`
      that `os.path.isdir(None)` raises when the program has no `src=` line. */
  datatype SourceError = SourceDirMissing | SourceDirNotFound(dir: string) | NoValidSourceFiles

  /** `validate_sources(srcdir, files)`. */
  function ValidateSources(join: (string, string) -> string, fs: FileSystem, srcdir: Option<string>, files: string): (r: Result<seq<string>, SourceError>)
    ensures srcdir.None? ==> r == Err(SourceDirMissing)
    ensures srcdir.Some? && !IsDir(fs, srcdir.value) ==> r == Err(SourceDirNotFound(srcdir.value))
    ensures srcdir.Some? && IsDir(fs, srcdir.value) ==>
      var found := ExistingSources(join, fs, srcdir.value, Words(files));
      r == if found == [] then Err(NoValidSourceFiles) else Ok(found)
    ensures r.Ok? ==> r.value != [] && forall x :: x in r.value ==> IsFile(fs, x)
  {
    match srcdir
    case None => Err(SourceDirMissing)
    case Some(dir) =>
      if !IsDir(fs, dir) then Err(SourceDirNotFound(dir))
      else
        var found := ExistingSources(join, fs, dir, Words(files));
        if found == [] then Err(NoValidSourceFiles) else Ok(found)
  }

  /** `validate_options`: `' '.join(options.split(';'))`, which replaces every `;` by a
      single space and changes nothing else. */
  function ValidateOptions(options: string): (r: string)
    ensures |r| == |options|
    ensures forall k :: 0 <= k < |r| ==> r[k] == (if options[k] == ';' then ' ' else options[k])
    ensures ';' !in r
    ensures ';' !in options ==> r == options
  {
    JoinSplitIsReplace(options, ';', ' ');
    JoinWith(' ', SplitOn(options, ';'))
  }

  /** `option=-Wall;-O2` reaches the compiler as the single argument `-Wall -O2`. */
  lemma ValidateOptionsExample(options: string)
    requires options == "-Wall;-O2"
    ensures ValidateOptions(options) == "-Wall -O2"
  {
    var r := ValidateOptions(options);
    assert options[5] == ';' && r[5] == ' ';
    assert forall k :: 0 <= k < |r| && k != 5 ==> r[k] == options[k];
  }

  /** The parts of a compile command `[compiler] + sources + ["-g", "-o", output, options]`. */
  function CompilerOf(command: seq<string>): string
    requires |command| >= 5
  {
    command[0]
  }

  function SourcesOf(command: seq<string>): seq<string>
    requires |command| >= 5
  {
    command[1..|command| - 4]
  }

  function OutputOf(command: seq<string>): string
    requires |command| >= 5
  {
    command[|command| - 2]
  }

  function OptionsOf(command: seq<string>): string
    requires |command| >= 5
  {
    command[|command| - 1]
  }

  /** The command `compile_program` runs: the options string stays one final argument,
      and every part can be read back from the command. */
  function CompileCommand(compiler: string, sources: seq<string>, output: string, options: string): (command: seq<string>)
    ensures |command| == |sources| + 5
    ensures CompilerOf(command) == compiler && SourcesOf(command) == sources
    ensures command[|command| - 4..|command| - 2] == ["-g", "-o"]
    ensures OutputOf(command) == output && OptionsOf(command) == options
  {
    var command := [compiler] + sources + ["-g", "-o", output, options];
    assert command[1..|command| - 4] == sources;
    command
  }

  /** Why `detect_compiler` raises `EnvironmentError`. */
  datatype CompilerError = NoCompilerFound(system: string) | UnknownPlatform(system: string)

  /** Whether a `shutil.which` result is truthy. */
  predicate Found(path: Option<string>) {
    path.Some? && path.value != ""
  }

  /** `detect_compiler` over `platform.system()` and `shutil.which`: on Linux and macOS the
      literal `g++` once `g++` is on the PATH; on Windows the path found for `g++`, else the
      one found for `cl`; on any other system an error. */
  function DetectCompiler(system: string, which: string -> Option<string>): (r: Result<string, CompilerError>)
    ensures system in ["Linux", "Darwin"] ==>
      r == if Found(which("g++")) then Ok("g++") else Err(NoCompilerFound(system))
    ensures system == "Windows" ==>
      r == if Found(which("g++")) then Ok(which("g++").value)
           else if Found(which("cl")) then Ok(which("cl").value)
           else Err(NoCompilerFound(system))
    ensures system !in ["Linux", "Darwin", "Windows"] ==> r == Err(UnknownPlatform(system))
  {
    if system in ["Linux", "Darwin"] then
      if Found(which("g++")) then Ok("g++") else Err(NoCompilerFound(system))
    else if system == "Windows" then
      var compiler := if Found(which("g++")) then which("g++") else which("cl");
      if Found(compiler) then Ok(compiler.value) else Err(NoCompilerFound(system))
    else
      Err(UnknownPlatform(system))
  }

  /** A compiler is found exactly on a known platform where `which` finds `g++`, or on
      Windows `cl`; what is returned is never empty and is either `g++` or a path that
      `which` reported for `g++` or `cl`. */
  lemma CompilerChoice(system: string, which: string -> Option<string>)
    ensures var r := DetectCompiler(system, which);
      (r.Ok? <==> (system in ["Linux", "Darwin", "Windows"] && Found(which("g++"))) ||
                  (system == "Windows" && Found(which("cl")))) &&
      (r.Ok? ==> r.value != "" &&
                 (r.value == "g++" || Some(r.value) == which("g++") || Some(r.value) == which("cl")))
  {
  }
}
