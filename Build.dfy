/** `main`: read the build file, pick the compiler, then build every declared program
    in declaration order, stopping the whole run at the first program that fails. */
module Build {
  import opened Wrappers
  import opened Text
  import opened BuildFile
  import opened Jobs

  /** What the run learns from its surroundings, as oracles. */
  datatype Env = Env(
    system: string,                      // `platform.system()`
    which: string -> Option<string>,     // `shutil.which`
    join: (string, string) -> string,    // `os.path.join`
    canCreate: string -> bool,           // whether `os.makedirs(d, exist_ok=True)` succeeds
    compiles: seq<string> -> bool)       // whether the compiler exits with status 0 on a command

  /** What the run does to the outside world, in order. */
  datatype Effect = MakeDirs(dir: string) | Compile(command: seq<string>)

  /** Why the run stops with a non-zero status (by `sys.exit(1)` or an uncaught exception). */
  datatype Failure =
    | LoadFailed(load: LoadError)
    | NoCompiler(compiler: CompilerError)
    | MissingFileList(prog: string)               // `if not files`
    | MissingBinDir(prog: string)                 // `ValueError` in `prepare_directories`
    | BinDirCreateFailed(prog: string, dir: string)
    | BadSources(prog: string, sources: SourceError)
    | MissingOptions(prog: string)                // `validate_options(None)` raises
    | CompileFailed(prog: string, output: string)

  datatype Outcome = Success | Failed(failure: Failure)

  /** The effects performed, the filesystem afterwards, and how the run ended. */
  datatype Run = Run(effects: seq<Effect>, fs: FileSystem, outcome: Outcome)

  /** Effects `done` first, then the run `r`. */
  function Then(done: seq<Effect>, r: Run): Run {
    Run(done + r.effects, r.fs, r.outcome)
  }

  /** The filesystem after a successful `os.makedirs(dir)`. */
  function Created(fs: FileSystem, dir: string): FileSystem {
    fs.(dirs := fs.dirs + {dir})
  }

  /** The commands handed to the compiler, in order. */
  function Compiles(effects: seq<Effect>): seq<seq<string>> {
    if effects == [] then []
    else (if effects[0].Compile? then [effects[0].command] else []) + Compiles(effects[1..])
  }

  /** One iteration of the loop in `main`, for program `prog`. */
  function BuildOne(env: Env, compiler: string, fs: FileSystem, cfg: Config, prog: string): Run {
    var outbin := BinaryName(env.system, prog);
    var files := Get(cfg.files, prog);
    if files.None? || files.value == "" then Run([], fs, Failed(MissingFileList(prog)))
    else
      var bindir := Get(cfg.bin, prog);
      if bindir.None? || bindir.value == "" then Run([], fs, Failed(MissingBinDir(prog)))
      else if !env.canCreate(bindir.value) then
        Run([MakeDirs(bindir.value)], fs, Failed(BinDirCreateFailed(prog, bindir.value)))
      else
        var made := Created(fs, bindir.value);
        var sources := ValidateSources(env.join, made, Get(cfg.src, prog), files.value);
        if sources.Err? then Run([MakeDirs(bindir.value)], made, Failed(BadSources(prog, sources.error)))
        else
          var output := env.join(bindir.value, outbin);
          var option := Get(cfg.options, prog);
          if option.None? then Run([MakeDirs(bindir.value)], made, Failed(MissingOptions(prog)))
          else
            var command := CompileCommand(compiler, sources.value, output, ValidateOptions(option.value));
            Run([MakeDirs(bindir.value), Compile(command)], made,
                if env.compiles(command) then Success else Failed(CompileFailed(prog, output)))
  }

  /** The step `main` takes for each program. */
  function Attempt(env: Env, compiler: string, cfg: Config): (FileSystem, string) -> Run {
    (fs: FileSystem, prog: string) => BuildOne(env, compiler, fs, cfg, prog)
  }

  /** The loop of `main`: `step` for each of `progs` in turn, each from the filesystem the
      previous one left behind; the first step that fails ends the run. */
  function BuildEach(step: (FileSystem, string) -> Run, fs: FileSystem, progs: seq<string>): Run
    decreases |progs|
  {
    if progs == [] then Run([], fs, Success)
    else
      var one := step(fs, progs[0]);
      if one.outcome.Failed? then one
      else Then(one.effects, BuildEach(step, one.fs, progs[1..]))
  }

  /** `main` run on a build file with these lines, starting from filesystem `fs`. */
  function Orchestrate(env: Env, fs: FileSystem, lines: seq<string>): Run {
    match Load(lines)
    case Err(e) => Run([], fs, Failed(LoadFailed(e)))
    case Ok(cfg) =>
      match DetectCompiler(env.system, env.which)
      case Err(e) => Run([], fs, Failed(NoCompiler(e)))
      case Ok(compiler) => BuildEach(Attempt(env, compiler, cfg), fs, cfg.progs)
  }

  // The loop of `main`

  /** Running `step` over all of `progs` from `fs0` is the same as having done `done` and
      reaching `fs`, then running it over the programs from index `i` on. */
  ghost predicate BuiltSoFar(step: (FileSystem, string) -> Run, fs0: FileSystem, progs: seq<string>, i: nat, done: seq<Effect>, fs: FileSystem) {
    i <= |progs| &&
    BuildEach(step, fs0, progs) == Then(done, BuildEach(step, fs, progs[i..]))
  }

  lemma BuiltNext(step: (FileSystem, string) -> Run, fs0: FileSystem, progs: seq<string>, i: nat, done: seq<Effect>, fs: FileSystem)
    requires BuiltSoFar(step, fs0, progs, i, done, fs) && i < |progs|
    requires step(fs, progs[i]).outcome == Success
    ensures BuiltSoFar(step, fs0, progs, i + 1, done + step(fs, progs[i]).effects, step(fs, progs[i]).fs)
  {
    var rest := progs[i..];
    assert rest[0] == progs[i] && rest[1..] == progs[i + 1..];
    var one := step(fs, progs[i]);
    ThenThen(done, one.effects, BuildEach(step, one.fs, progs[i + 1..]));
  }

  lemma BuiltStops(step: (FileSystem, string) -> Run, fs0: FileSystem, progs: seq<string>, i: nat, done: seq<Effect>, fs: FileSystem)
    requires BuiltSoFar(step, fs0, progs, i, done, fs) && i < |progs|
    requires step(fs, progs[i]).outcome.Failed?
    ensures BuildEach(step, fs0, progs) == Then(done, step(fs, progs[i]))
  {
    assert progs[i..][0] == progs[i];
  }

  /** What one more iteration of the loop tells about the whole run. */
  lemma BuiltAfter(step: (FileSystem, string) -> Run, fs0: FileSystem, progs: seq<string>, i: nat, done: seq<Effect>, fs: FileSystem, r: Run)
    requires BuiltSoFar(step, fs0, progs, i, done, fs) && i < |progs|
    requires r == step(fs, progs[i])
    ensures r.outcome.Failed? ==> BuildEach(step, fs0, progs) == Then(done, r)
    ensures r.outcome == Success ==> BuiltSoFar(step, fs0, progs, i + 1, done + r.effects, r.fs)
  {
    if r.outcome.Failed? {
      BuiltStops(step, fs0, progs, i, done, fs);
    } else {
      BuiltNext(step, fs0, progs, i, done, fs);
    }
  }

  lemma ThenThen(a: seq<Effect>, b: seq<Effect>, r: Run)
    ensures Then(a, Then(b, r)) == Then(a + b, r)
  {
    assert a + (b + r.effects) == (a + b) + r.effects;
  }

  /** The body of the loop in `main` for one program: it creates the binary directory
      and runs the compiler, and returns at the first check that fails. */
  method BuildProgram(env: Env, compiler: string, fs: FileSystem, cfg: Config, prog: string)
    returns (effects: seq<Effect>, fsAfter: FileSystem, outcome: Outcome)
    ensures Run(effects, fsAfter, outcome) == Attempt(env, compiler, cfg)(fs, prog)
  {
    effects, fsAfter := [], fs;
    var outbin := BinaryName(env.system, prog);
    var srcdir := Get(cfg.src, prog);
    var bindir := Get(cfg.bin, prog);
    var files := Get(cfg.files, prog);
    var option := Get(cfg.options, prog);
    if files.None? || files.value == "" {
      return effects, fsAfter, Failed(MissingFileList(prog));
    }
    if bindir.None? || bindir.value == "" {
      return effects, fsAfter, Failed(MissingBinDir(prog));
    }
    effects := effects + [MakeDirs(bindir.value)];
    if !env.canCreate(bindir.value) {
      return effects, fsAfter, Failed(BinDirCreateFailed(prog, bindir.value));
    }
    fsAfter := Created(fsAfter, bindir.value);
    var sources := ValidateSources(env.join, fsAfter, srcdir, files.value);
    if sources.Err? {
      return effects, fsAfter, Failed(BadSources(prog, sources.error));
    }
    var output := env.join(bindir.value, outbin);
    if option.None? {
      return effects, fsAfter, Failed(MissingOptions(prog));
    }
    var options := ValidateOptions(option.value);
    var command := CompileCommand(compiler, sources.value, output, options);
    effects := effects + [Compile(command)];
    outcome := if env.compiles(command) then Success else Failed(CompileFailed(prog, output));
  }

  /** `main`: load, detect the compiler, then the loop over the declared programs, which
      returns at the first program that fails. */
  method RunBuild(env: Env, fs: FileSystem, lines: seq<string>) returns (effects: seq<Effect>, fsAfter: FileSystem, outcome: Outcome)
    ensures Run(effects, fsAfter, outcome) == Orchestrate(env, fs, lines)
  {
    effects, fsAfter := [], fs;
    var loaded := LoadBuildFile(lines);
    if loaded.Err? {
      return effects, fsAfter, Failed(LoadFailed(loaded.error));
    }
    var cfg := loaded.value;
    var detected := DetectCompiler(env.system, env.which);
    if detected.Err? {
      return effects, fsAfter, Failed(NoCompiler(detected.error));
    }
    var compiler := detected.value;
    effects, fsAfter, outcome := BuildPrograms(env, compiler, cfg, fs);
  }

  /** The loop of `main` over the declared programs, which returns at the first program
      that fails. */
  method BuildPrograms(env: Env, compiler: string, cfg: Config, fs: FileSystem)
    returns (effects: seq<Effect>, fsAfter: FileSystem, outcome: Outcome)
    ensures Run(effects, fsAfter, outcome) == BuildEach(Attempt(env, compiler, cfg), fs, cfg.progs)
  {
    effects, fsAfter := [], fs;
    ghost var step := Attempt(env, compiler, cfg);
    assert cfg.progs[0..] == cfg.progs;
    assert [] + BuildEach(step, fs, cfg.progs).effects == BuildEach(step, fs, cfg.progs).effects;
    var i := 0;
    while i < |cfg.progs|
      invariant BuiltSoFar(step, fs, cfg.progs, i, effects, fsAfter)
    {
      var stepEffects, stepFs, stepOutcome := BuildProgram(env, compiler, fsAfter, cfg, cfg.progs[i]);
      BuiltAfter(step, fs, cfg.progs, i, effects, fsAfter, Run(stepEffects, stepFs, stepOutcome));
      if stepOutcome.Failed? {
        return effects + stepEffects, stepFs, stepOutcome;
      }
      effects, fsAfter := effects + stepEffects, stepFs;
      i := i + 1;
    }
    assert cfg.progs[i..] == [];
    assert effects + [] == effects;
    outcome := Success;
  }

  // One program

  lemma {:induction false} CompilesAppend(a: seq<Effect>, b: seq<Effect>)
    ensures Compiles(a + b) == Compiles(a) + Compiles(b)
    decreases |a|
  {
    if a == [] {
      assert a + b == b;
    } else {
      var head := if a[0].Compile? then [a[0].command] else [];
      assert (a + b)[0] == a[0] && (a + b)[1..] == a[1..] + b;
      assert Compiles(a + b) == head + Compiles(a[1..] + b);
      CompilesAppend(a[1..], b);
    }
  }

  /** The compiler runs at most once per program, and only with the command built from
      the program's own entries after every check has passed: a file list, a binary
      directory that could be created, an existing source directory, at least one existing
      source file, and an option line. */
  lemma CompileOnlyAfterChecks(env: Env, compiler: string, fs: FileSystem, cfg: Config, prog: string)
    ensures var one := BuildOne(env, compiler, fs, cfg, prog);
      |Compiles(one.effects)| <= 1 &&
      (Compiles(one.effects) != [] ==>
        var command := Compiles(one.effects)[0];
        prog in cfg.files && cfg.files[prog] != "" &&
        prog in cfg.bin && cfg.bin[prog] != "" && env.canCreate(cfg.bin[prog]) &&
        prog in cfg.src && IsDir(Created(fs, cfg.bin[prog]), cfg.src[prog]) &&
        prog in cfg.options &&
        |command| >= 5 && CompilerOf(command) == compiler &&
        SourcesOf(command) == ExistingSources(env.join, Created(fs, cfg.bin[prog]), cfg.src[prog], Words(cfg.files[prog])) &&
        SourcesOf(command) != [] &&
        OutputOf(command) == env.join(cfg.bin[prog], BinaryName(env.system, prog)) &&
        OptionsOf(command) == ValidateOptions(cfg.options[prog]))
  {
    var one := BuildOne(env, compiler, fs, cfg, prog);
    if |one.effects| == 2 {
      CompilesAppend([one.effects[0]], [one.effects[1]]);
      assert one.effects == [one.effects[0]] + [one.effects[1]];
    }
  }

  /** A program succeeds exactly when a compile command was issued and the compiler
      accepted it; a failing check issues none. */
  lemma SuccessMeansCompiled(env: Env, compiler: string, fs: FileSystem, cfg: Config, prog: string)
    ensures var one := BuildOne(env, compiler, fs, cfg, prog);
      (one.outcome == Success <==> Compiles(one.effects) != [] && env.compiles(Compiles(one.effects)[0])) &&
      (one.outcome.Failed? && !one.outcome.failure.CompileFailed? ==> Compiles(one.effects) == [])
  {
    var one := BuildOne(env, compiler, fs, cfg, prog);
    if |one.effects| == 2 {
      CompilesAppend([one.effects[0]], [one.effects[1]]);
      assert one.effects == [one.effects[0]] + [one.effects[1]];
    }
  }

  /** The file list is checked before anything else happens: without one, no directory is
      created and nothing is compiled, whatever the other entries say. */
  lemma FileListCheckedFirst(env: Env, compiler: string, fs: FileSystem, cfg: Config, prog: string)
    requires prog !in cfg.files || cfg.files[prog] == ""
    ensures BuildOne(env, compiler, fs, cfg, prog) == Run([], fs, Failed(MissingFileList(prog)))
  {
  }

  /** A program without an option line is never compiled and always fails; when all its
      other entries are in order it fails only after its binary directory was created. */
  lemma NoOptionLineNeverBuilds(env: Env, compiler: string, fs: FileSystem, cfg: Config, prog: string)
    requires prog !in cfg.options
    ensures var one := BuildOne(env, compiler, fs, cfg, prog);
      one.outcome.Failed? && Compiles(one.effects) == []
    ensures (prog in cfg.files && cfg.files[prog] != "" && prog in cfg.bin && cfg.bin[prog] != "" &&
               env.canCreate(cfg.bin[prog]) &&
               ValidateSources(env.join, Created(fs, cfg.bin[prog]), Get(cfg.src, prog), cfg.files[prog]).Ok?) ==>
      BuildOne(env, compiler, fs, cfg, prog) == Run([MakeDirs(cfg.bin[prog])], Created(fs, cfg.bin[prog]), Failed(MissingOptions(prog)))
  {
  }

  /** The checks of one iteration come in a fixed order: file list, binary directory
      (present, then created), sources, option line, compile. Whichever failure is
      reported, every check before it passed and its own check failed. */
  lemma ChecksInOrder(env: Env, compiler: string, fs: FileSystem, cfg: Config, prog: string)
    ensures var r := BuildOne(env, compiler, fs, cfg, prog);
      var listed := prog in cfg.files && cfg.files[prog] != "";
      var hasBin := prog in cfg.bin && cfg.bin[prog] != "";
      (r.outcome == Failed(MissingFileList(prog)) <==> !listed) &&
      (r.outcome == Failed(MissingBinDir(prog)) <==> listed && !hasBin) &&
      (r.outcome.Failed? && r.outcome.failure.BinDirCreateFailed? <==>
         listed && hasBin && !env.canCreate(cfg.bin[prog])) &&
      (r.outcome.Failed? && r.outcome.failure.BadSources? <==>
         listed && hasBin && env.canCreate(cfg.bin[prog]) &&
         ValidateSources(env.join, Created(fs, cfg.bin[prog]), Get(cfg.src, prog), cfg.files[prog]).Err?) &&
      (r.outcome == Failed(MissingOptions(prog)) <==>
         listed && hasBin && env.canCreate(cfg.bin[prog]) &&
         ValidateSources(env.join, Created(fs, cfg.bin[prog]), Get(cfg.src, prog), cfg.files[prog]).Ok? &&
         prog !in cfg.options) &&
      (r.outcome.Failed? && r.outcome.failure.CompileFailed? ==>
         listed && hasBin && env.canCreate(cfg.bin[prog]) &&
         ValidateSources(env.join, Created(fs, cfg.bin[prog]), Get(cfg.src, prog), cfg.files[prog]).Ok? &&
         prog in cfg.options)
  {
  }

  /** Building one program never removes anything and touches no file; the only directory
      it can add is the program's binary directory. */
  lemma BuildOneFileSystem(env: Env, compiler: string, fs: FileSystem, cfg: Config, prog: string)
    ensures var one := BuildOne(env, compiler, fs, cfg, prog);
      one.fs.files == fs.files &&
      (one.fs == fs || (prog in cfg.bin && one.fs == Created(fs, cfg.bin[prog]) && MakeDirs(cfg.bin[prog]) in one.effects)) &&
      (one.outcome == Success ==> prog in cfg.bin && IsDir(one.fs, cfg.bin[prog]))
  {
  }

  // The loop over all programs

  /** Once a program has failed, no program after it is attempted. */
  lemma {:induction false} FailureStopsTheRun(step: (FileSystem, string) -> Run, fs: FileSystem, progs: seq<string>, more: seq<string>)
    requires BuildEach(step, fs, progs).outcome.Failed?
    ensures BuildEach(step, fs, progs + more) == BuildEach(step, fs, progs)
    decreases |progs|
  {
    assert progs != [];
    assert (progs + more)[0] == progs[0] && (progs + more)[1..] == progs[1..] + more;
    var one := step(fs, progs[0]);
    if one.outcome == Success {
      FailureStopsTheRun(step, one.fs, progs[1..], more);
    }
  }

  /** After programs that all succeeded, the run goes on with the next ones from the
      filesystem they left behind. */
  lemma {:induction false} SuccessContinues(step: (FileSystem, string) -> Run, fs: FileSystem, progs: seq<string>, more: seq<string>)
    requires BuildEach(step, fs, progs).outcome == Success
    ensures var r := BuildEach(step, fs, progs);
      BuildEach(step, fs, progs + more) == Then(r.effects, BuildEach(step, r.fs, more))
    decreases |progs|
  {
    if progs == [] {
      assert progs + more == more;
      assert [] + BuildEach(step, fs, more).effects == BuildEach(step, fs, more).effects;
    } else {
      assert (progs + more)[0] == progs[0] && (progs + more)[1..] == progs[1..] + more;
      var one := step(fs, progs[0]);
      SuccessContinues(step, one.fs, progs[1..], more);
      var inner := BuildEach(step, one.fs, progs[1..]);
      ThenThen(one.effects, inner.effects, BuildEach(step, inner.fs, more));
    }
  }

  /** Program `k` is the one that failed: every program before it succeeded, and the run
      is theirs followed by its own attempt. */
  ghost predicate FailsAt(step: (FileSystem, string) -> Run, fs: FileSystem, progs: seq<string>, k: int) {
    0 <= k < |progs| &&
    var before := BuildEach(step, fs, progs[..k]);
    var one := step(before.fs, progs[k]);
    before.outcome == Success && one.outcome.Failed? &&
    BuildEach(step, fs, progs) == Then(before.effects, one)
  }

  lemma FailsAtFirst(step: (FileSystem, string) -> Run, fs: FileSystem, progs: seq<string>)
    requires progs != [] && step(fs, progs[0]).outcome.Failed?
    ensures FailsAt(step, fs, progs, 0)
  {
    assert progs[..0] == [];
    var one := step(fs, progs[0]);
    assert [] + one.effects == one.effects;
  }

  lemma FailsAtLater(step: (FileSystem, string) -> Run, fs: FileSystem, progs: seq<string>, k: int)
    requires progs != [] && step(fs, progs[0]).outcome == Success
    requires FailsAt(step, step(fs, progs[0]).fs, progs[1..], k)
    ensures FailsAt(step, fs, progs, k + 1)
  {
    var first := step(fs, progs[0]);
    assert progs[..k + 1][0] == progs[0] && progs[..k + 1][1..] == progs[1..][..k];
    var inner := BuildEach(step, first.fs, progs[1..][..k]);
    ThenThen(first.effects, inner.effects, step(inner.fs, progs[1..][k]));
  }

  /** A failed run failed at some program `k`: the earlier ones all succeeded and the
      later ones were never attempted. `FailsAtUnique` says that `k` is unique. */
  lemma {:induction false} FailureHasOneCause(step: (FileSystem, string) -> Run, fs: FileSystem, progs: seq<string>)
    requires BuildEach(step, fs, progs).outcome.Failed?
    ensures exists k :: FailsAt(step, fs, progs, k)
    decreases |progs|
  {
    assert progs != [];
    var one := step(fs, progs[0]);
    if one.outcome.Failed? {
      FailsAtFirst(step, fs, progs);
    } else {
      FailureHasOneCause(step, one.fs, progs[1..]);
      var k :| FailsAt(step, one.fs, progs[1..], k);
      FailsAtLater(step, fs, progs, k);
    }
  }

  /** A run fails at one program only: no two indices both satisfy `FailsAt`. */
  lemma FailsAtUnique(step: (FileSystem, string) -> Run, fs: FileSystem, progs: seq<string>, j: int, k: int)
    requires FailsAt(step, fs, progs, j) && FailsAt(step, fs, progs, k)
    ensures j == k
  {
    if j < k {
      EarlierFailureBlocks(step, fs, progs, j, k);
    } else if k < j {
      EarlierFailureBlocks(step, fs, progs, k, j);
    }
  }

  /** When program `j` fails, the programs before any later `k` did not all succeed. */
  lemma EarlierFailureBlocks(step: (FileSystem, string) -> Run, fs: FileSystem, progs: seq<string>, j: int, k: int)
    requires FailsAt(step, fs, progs, j) && j < k <= |progs|
    ensures BuildEach(step, fs, progs[..k]).outcome.Failed?
  {
    var a := progs[..j];
    var b := progs[j..k];
    assert progs[..k] == a + b;
    SuccessContinues(step, fs, a, b);
    assert b[0] == progs[j];
  }

  /** Run `r`, started from `fs`, compiled each of `progs` once and in order, each into
      `join(bin, binary name)`; every binary directory exists afterwards and no file changed. */
  ghost predicate CompiledEach(env: Env, cfg: Config, progs: seq<string>, fs: FileSystem, r: Run) {
    var commands := Compiles(r.effects);
    |commands| == |progs| &&
    (forall i :: 0 <= i < |progs| ==>
       progs[i] in cfg.bin && IsDir(r.fs, cfg.bin[progs[i]]) && |commands[i]| >= 5 &&
       OutputOf(commands[i]) == env.join(cfg.bin[progs[i]], BinaryName(env.system, progs[i]))) &&
    r.fs.files == fs.files && fs.dirs <= r.fs.dirs
  }

  /** A program that succeeded compiled once, into its output path, and left its binary
      directory in place. */
  lemma SuccessfulProgram(env: Env, compiler: string, fs: FileSystem, cfg: Config, prog: string)
    requires BuildOne(env, compiler, fs, cfg, prog).outcome == Success
    ensures CompiledEach(env, cfg, [prog], fs, BuildOne(env, compiler, fs, cfg, prog))
  {
    CompileOnlyAfterChecks(env, compiler, fs, cfg, prog);
    SuccessMeansCompiled(env, compiler, fs, cfg, prog);
    BuildOneFileSystem(env, compiler, fs, cfg, prog);
  }

  lemma CompiledEachCons(env: Env, cfg: Config, progs: seq<string>, fs: FileSystem, one: Run, rest: Run)
    requires progs != []
    requires CompiledEach(env, cfg, [progs[0]], fs, one)
    requires CompiledEach(env, cfg, progs[1..], one.fs, rest)
    ensures CompiledEach(env, cfg, progs, fs, Then(one.effects, rest))
  {
    CompilesAppend(one.effects, rest.effects);
    var commands := Compiles(one.effects + rest.effects);
    forall i | 0 <= i < |progs|
      ensures progs[i] in cfg.bin && IsDir(rest.fs, cfg.bin[progs[i]]) && |commands[i]| >= 5 &&
        OutputOf(commands[i]) == env.join(cfg.bin[progs[i]], BinaryName(env.system, progs[i]))
    {
      if i > 0 {
        assert progs[i] == progs[1..][i - 1];
      } else {
        assert IsDir(one.fs, cfg.bin[progs[0]]);
      }
    }
  }

  /** A successful run compiled every program exactly once, in order, each into
      `join(bin, binary name)`; it created every binary directory and touched no file. */
  lemma {:induction false} SuccessCompilesEach(env: Env, compiler: string, fs: FileSystem, cfg: Config, progs: seq<string>)
    requires BuildEach(Attempt(env, compiler, cfg), fs, progs).outcome == Success
    ensures CompiledEach(env, cfg, progs, fs, BuildEach(Attempt(env, compiler, cfg), fs, progs))
    decreases |progs|
  {
    var step := Attempt(env, compiler, cfg);
    if progs == [] {
      assert Compiles([]) == [];
    } else {
      var one := BuildOne(env, compiler, fs, cfg, progs[0]);
      assert step(fs, progs[0]) == one;
      SuccessfulProgram(env, compiler, fs, cfg, progs[0]);
      SuccessCompilesEach(env, compiler, one.fs, cfg, progs[1..]);
      CompiledEachCons(env, cfg, progs, fs, one, BuildEach(step, one.fs, progs[1..]));
    }
  }

  /** Building programs never reports a load or compiler-detection failure. */
  lemma {:induction false} NoSetupFailureLater(env: Env, compiler: string, fs: FileSystem, cfg: Config, progs: seq<string>)
    ensures var r := BuildEach(Attempt(env, compiler, cfg), fs, progs);
      r.outcome.Failed? ==> !r.outcome.failure.LoadFailed? && !r.outcome.failure.NoCompiler?
    decreases |progs|
  {
    if progs != [] {
      NoSetupFailureLater(env, compiler, BuildOne(env, compiler, fs, cfg, progs[0]).fs, cfg, progs[1..]);
    }
  }

  // The whole run

  /** Nothing is created or compiled when the build file cannot be read or no compiler
      is found; a build file fails to load exactly when a field line comes before every
      `prog=` line. */
  lemma SetupFailuresDoNothing(env: Env, fs: FileSystem, lines: seq<string>)
    ensures var r := Orchestrate(env, fs, lines);
      (r.outcome.Failed? && (r.outcome.failure.LoadFailed? || r.outcome.failure.NoCompiler?) ==> r.effects == [] && r.fs == fs) &&
      (r.outcome.Failed? && r.outcome.failure.LoadFailed? <==> exists k :: FieldBeforeAnyProg(lines, k)) &&
      (Load(lines).Ok? && DetectCompiler(env.system, env.which).Err? ==> r == Run([], fs, Failed(NoCompiler(DetectCompiler(env.system, env.which).error))))
  {
    LoadFailsIff(lines);
    if Load(lines).Ok? && DetectCompiler(env.system, env.which).Ok? {
      NoSetupFailureLater(env, DetectCompiler(env.system, env.which).value, fs, Load(lines).value, Load(lines).value.progs);
    }
  }

  /** A run that ends with status 0 compiled every declared program exactly once, each
      name once, in the order the names first appear in the build file. */
  lemma SuccessfulRun(env: Env, fs: FileSystem, lines: seq<string>)
    requires Orchestrate(env, fs, lines).outcome == Success
    ensures Load(lines).Ok? && DetectCompiler(env.system, env.which).Ok?
    ensures var cfg := Load(lines).value;
      FirstAppearanceOrder(cfg.progs, Declared(lines)) &&
      CompiledEach(env, cfg, cfg.progs, fs, Orchestrate(env, fs, lines))
  {
    var cfg := Load(lines).value;
    ProgramOrder(lines);
    SuccessCompilesEach(env, DetectCompiler(env.system, env.which).value, fs, cfg, cfg.progs);
  }
}
