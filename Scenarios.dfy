/** Reading a build file that declares one program, and whole runs of `main` on any
    build file that loads as one program's record. */
module Scenarios {
  import opened Wrappers
  import opened Text
  import opened BuildFile
  import opened Jobs
  import opened Build

  /** A value that `strip()` leaves alone at the end of a `key=value` line. */
  predicate EndsClean(v: string) {
    v == [] || !IsWhite(v[|v| - 1])
  }

  /** The build file `prog=<name>`, `src=<src>`, `bin=<bin>`, `file=<files>` and, when
      given, `option=<option>`. */
  function ProgramFile(name: string, src: string, bin: string, files: string, option: Option<string>): seq<string> {
    [Assignment("prog", name), Assignment("src", src), Assignment("bin", bin), Assignment("file", files)] +
    (if option.Some? then [Assignment("option", option.value)] else [])
  }

  /** The record `ProgramFile(name, src, bin, files, option)` loads as. */
  function ProgramRecord(name: string, src: string, bin: string, files: string, option: Option<string>): Config {
    Config([name], map[name := src], map[name := bin], map[name := files],
           if option.Some? then map[name := option.value] else map[])
  }

  lemma TrimAssignment(key: string, v: string)
    requires key != [] && !IsWhite(key[0]) && EndsClean(v)
    ensures Trim(Assignment(key, v)) == Assignment(key, v)
  {
    var line := Assignment(key, v);
    assert line[0] == key[0];
    assert line[|line| - 1] == if v == [] then '=' else v[|v| - 1];
    TrimKeepsTrimmed(line);
  }

  lemma ReadsLine(p: Parser, lines: seq<string>, k: nat, q: Parser)
    requires k < |lines| && ParseLine(p, lines[k]) == Ok(q)
    ensures RunFrom(p, lines[k..]) == RunFrom(q, lines[k + 1..])
  {
    assert lines[k..][0] == lines[k] && lines[k..][1..] == lines[k + 1..];
  }

  /** `prog=<name>` is already stripped and reads as a declaration of `name`. */
  lemma StrippedProgLine(name: string, line: string)
    requires EndsClean(name) && line == Assignment("prog", name)
    ensures Trim(line) == line && ClassifyStripped(line) == ProgLine(name)
  {
    TrimAssignment("prog", name);
    ReadsAsProg(line, name);
  }

  /** `<key>=<v>` is already stripped and reads as setting that field to `v`. */
  lemma StrippedFieldLine(f: Field, v: string, line: string)
    requires EndsClean(v) && line == Assignment(KeyName(f), v)
    ensures Trim(line) == line && ClassifyStripped(line) == FieldLine(f, v)
  {
    assert line[0] == KeyName(f)[0];
    assert line[|line| - 1] == if v == [] then '=' else v[|v| - 1];
    TrimKeepsTrimmed(line);
    ReadsAsField(line, f, v);
  }

  lemma ReadsProg(name: string, line: string)
    requires Trim(line) == line && ClassifyStripped(line) == ProgLine(name)
    ensures ParseLine(Start, line) == Ok(Parser(Start.config.(progs := [name]), Some(name)))
  {
    assert AddProg([], name) == [name];
  }

  lemma ReadsField(p: Parser, f: Field, v: string, line: string, q: Parser)
    requires p.current.Some? && Trim(line) == line && ClassifyStripped(line) == FieldLine(f, v)
    requires q == p.(config := Store(p.config, f, p.current.value, v))
    ensures ParseLine(p, line) == Ok(q)
  {
  }

  /** The reader's state after the first `k` lines of `ProgramFile(name, src, bin, files, option)`. */
  function ReadState(name: string, src: string, bin: string, files: string, option: Option<string>, k: nat): Parser {
    if k == 0 then Start
    else if k == 1 then Parser(Config([name], map[], map[], map[], map[]), Some(name))
    else if k == 2 then Parser(Config([name], map[name := src], map[], map[], map[]), Some(name))
    else if k == 3 then Parser(Config([name], map[name := src], map[name := bin], map[], map[]), Some(name))
    else if k == 4 || option.None? then Parser(Config([name], map[name := src], map[name := bin], map[name := files], map[]), Some(name))
    else Parser(Config([name], map[name := src], map[name := bin], map[name := files], map[name := option.value]), Some(name))
  }

  lemma ReadsNextLine(name: string, src: string, bin: string, files: string, option: Option<string>, k: nat)
    requires EndsClean(name) && EndsClean(src) && EndsClean(bin) && EndsClean(files)
    requires option.Some? ==> EndsClean(option.value)
    requires k < |ProgramFile(name, src, bin, files, option)|
    ensures ParseLine(ReadState(name, src, bin, files, option, k), ProgramFile(name, src, bin, files, option)[k]) ==
      Ok(ReadState(name, src, bin, files, option, k + 1))
  {
    var l := ProgramFile(name, src, bin, files, option);
    var p := ReadState(name, src, bin, files, option, k);
    var q := ReadState(name, src, bin, files, option, k + 1);
    if k == 0 {
      StrippedProgLine(name, l[0]);
      ReadsProg(name, l[0]);
    } else if k == 1 {
      StrippedFieldLine(Src, src, l[1]);
      ReadsField(p, Src, src, l[1], q);
    } else if k == 2 {
      StrippedFieldLine(Bin, bin, l[2]);
      ReadsField(p, Bin, bin, l[2], q);
    } else if k == 3 {
      StrippedFieldLine(Files, files, l[3]);
      ReadsField(p, Files, files, l[3], q);
    } else {
      assert option.Some?;
      StrippedFieldLine(Options, option.value, l[4]);
      ReadsField(p, Options, option.value, l[4], q);
    }
  }

  lemma {:induction false} ReadsRest(name: string, src: string, bin: string, files: string, option: Option<string>, k: nat)
    requires EndsClean(name) && EndsClean(src) && EndsClean(bin) && EndsClean(files)
    requires option.Some? ==> EndsClean(option.value)
    requires k <= |ProgramFile(name, src, bin, files, option)|
    ensures var l := ProgramFile(name, src, bin, files, option);
      RunFrom(ReadState(name, src, bin, files, option, k), l[k..]) == Ok(ReadState(name, src, bin, files, option, |l|))
    decreases |ProgramFile(name, src, bin, files, option)| - k
  {
    var l := ProgramFile(name, src, bin, files, option);
    if k < |l| {
      ReadsNextLine(name, src, bin, files, option, k);
      ReadsLine(ReadState(name, src, bin, files, option, k), l, k, ReadState(name, src, bin, files, option, k + 1));
      ReadsRest(name, src, bin, files, option, k + 1);
    } else {
      assert l[k..] == [];
    }
  }

  /** A build file that declares one program with its four or five entries loads as
      exactly that program's record, when no value ends in whitespace (`strip()` would
      cut it off). */
  lemma ProgramFileLoads(name: string, src: string, bin: string, files: string, option: Option<string>)
    requires EndsClean(name) && EndsClean(src) && EndsClean(bin) && EndsClean(files)
    requires option.Some? ==> EndsClean(option.value)
    ensures Load(ProgramFile(name, src, bin, files, option)) == Ok(ProgramRecord(name, src, bin, files, option))
  {
    var l := ProgramFile(name, src, bin, files, option);
    var last := ReadState(name, src, bin, files, option, |l|);
    assert last.config == ProgramRecord(name, src, bin, files, option);
    ReadsRest(name, src, bin, files, option, 0);
    assert l[0..] == l;
  }

  /** Once the file has loaded and a compiler was found, `main` is the loop over the
      declared programs. */
  lemma RunsLoop(env: Env, fs: FileSystem, lines: seq<string>, cfg: Config)
    requires Load(lines) == Ok(cfg) && DetectCompiler(env.system, env.which).Ok?
    ensures Orchestrate(env, fs, lines) == BuildEach(Attempt(env, DetectCompiler(env.system, env.which).value, cfg), fs, cfg.progs)
  {
  }

  lemma BuildsSingle(step: (FileSystem, string) -> Run, fs: FileSystem, prog: string)
    ensures BuildEach(step, fs, [prog]) == step(fs, prog)
  {
    assert [prog][1..] == [];
    var one := step(fs, prog);
    if one.outcome.Success? {
      assert one.effects + [] == one.effects;
    }
  }

  /** When a compiler is found, `main` on a file that loads as the record of one program
      is that program's build. */
  lemma RunsRecord(env: Env, fs: FileSystem, lines: seq<string>, name: string, src: string, bin: string, files: string, option: Option<string>)
    requires Load(lines) == Ok(ProgramRecord(name, src, bin, files, option))
    requires DetectCompiler(env.system, env.which).Ok?
    ensures Orchestrate(env, fs, lines) ==
      BuildOne(env, DetectCompiler(env.system, env.which).value, fs, ProgramRecord(name, src, bin, files, option), name)
  {
    var cfg := ProgramRecord(name, src, bin, files, option);
    RunsLoop(env, fs, lines, cfg);
    BuildsSingle(Attempt(env, DetectCompiler(env.system, env.which).value, cfg), fs, name);
  }

  /** Building the one program of a record whose file list and binary directory are
      non-empty, whose binary directory can be created and whose sources are valid. */
  lemma RecordBuilds(env: Env, compiler: string, fs: FileSystem, name: string, src: string, bin: string, files: string, option: Option<string>)
    requires files != "" && bin != "" && env.canCreate(bin)
    requires ValidateSources(env.join, Created(fs, bin), Some(src), files).Ok?
    ensures var sources := ValidateSources(env.join, Created(fs, bin), Some(src), files).value;
      var output := env.join(bin, BinaryName(env.system, name));
      var command := [compiler] + sources + ["-g", "-o", output, if option.Some? then ValidateOptions(option.value) else ""];
      BuildOne(env, compiler, fs, ProgramRecord(name, src, bin, files, option), name) ==
        if option.None? then Run([MakeDirs(bin)], Created(fs, bin), Failed(MissingOptions(name)))
        else Run([MakeDirs(bin), Compile(command)], Created(fs, bin),
                 if env.compiles(command) then Success else Failed(CompileFailed(name, output)))
  {
  }

  /** A record whose file list and binary directory pass their checks, but whose source
      directory does not exist. */
  lemma RecordMissingSourceDir(env: Env, compiler: string, fs: FileSystem, name: string, src: string, bin: string, files: string, option: Option<string>)
    requires files != "" && bin != "" && env.canCreate(bin)
    requires !IsDir(Created(fs, bin), src)
    ensures BuildOne(env, compiler, fs, ProgramRecord(name, src, bin, files, option), name) ==
      Run([MakeDirs(bin)], Created(fs, bin), Failed(BadSources(name, SourceDirNotFound(src))))
  {
  }

  /** `main` on a build file that declares one program with an option line (such as
      `ProgramFile(name, src, bin, files, Some(option))`, by `ProgramFileLoads`), when a
      compiler is found, the file list and binary directory are non-empty, the binary
      directory can be created and the sources are valid: the binary directory is created, then the detected compiler runs once on the existing source
      files, writing `join(bin, binary name)`, and its exit status decides the outcome. */
  lemma OneProgramRun(env: Env, fs: FileSystem, lines: seq<string>, name: string, src: string, bin: string, files: string, option: string)
    requires Load(lines) == Ok(ProgramRecord(name, src, bin, files, Some(option)))
    requires files != "" && bin != "" && env.canCreate(bin)
    requires DetectCompiler(env.system, env.which).Ok?
    requires ValidateSources(env.join, Created(fs, bin), Some(src), files).Ok?
    ensures var compiler := DetectCompiler(env.system, env.which).value;
      var sources := ValidateSources(env.join, Created(fs, bin), Some(src), files).value;
      var output := env.join(bin, BinaryName(env.system, name));
      var command := [compiler] + sources + ["-g", "-o", output, ValidateOptions(option)];
      Orchestrate(env, fs, lines) ==
        Run([MakeDirs(bin), Compile(command)], Created(fs, bin),
            if env.compiles(command) then Success else Failed(CompileFailed(name, output)))
  {
    RunsRecord(env, fs, lines, name, src, bin, files, Some(option));
    RecordBuilds(env, DetectCompiler(env.system, env.which).value, fs, name, src, bin, files, Some(option));
  }

  /** Without an option line, and with the same earlier checks passing, the program
      creates its binary directory and then fails before anything is compiled. */
  lemma OneProgramWithoutOption(env: Env, fs: FileSystem, lines: seq<string>, name: string, src: string, bin: string, files: string)
    requires Load(lines) == Ok(ProgramRecord(name, src, bin, files, None))
    requires files != "" && bin != "" && env.canCreate(bin)
    requires DetectCompiler(env.system, env.which).Ok?
    requires ValidateSources(env.join, Created(fs, bin), Some(src), files).Ok?
    ensures Orchestrate(env, fs, lines) == Run([MakeDirs(bin)], Created(fs, bin), Failed(MissingOptions(name)))
  {
    RunsRecord(env, fs, lines, name, src, bin, files, None);
    RecordBuilds(env, DetectCompiler(env.system, env.which).value, fs, name, src, bin, files, None);
  }

  /** When a compiler is found and the file list and binary directory pass their checks,
      a source directory that does not exist stops the run after the binary directory is
      created, before the options are looked at and before anything is compiled. */
  lemma OneProgramMissingSourceDir(env: Env, fs: FileSystem, lines: seq<string>, name: string, src: string, bin: string, files: string, option: Option<string>)
    requires Load(lines) == Ok(ProgramRecord(name, src, bin, files, option))
    requires files != "" && bin != "" && env.canCreate(bin)
    requires DetectCompiler(env.system, env.which).Ok?
    requires !IsDir(Created(fs, bin), src)
    ensures Orchestrate(env, fs, lines) ==
      Run([MakeDirs(bin)], Created(fs, bin), Failed(BadSources(name, SourceDirNotFound(src))))
  {
    RunsRecord(env, fs, lines, name, src, bin, files, option);
    RecordMissingSourceDir(env, DetectCompiler(env.system, env.which).value, fs, name, src, bin, files, option);
  }

  /** On Windows the binary gets the `.exe` suffix, and the compiler is the path `which`
      reports for `g++`, or for `cl` when there is no `g++`. */
  lemma WindowsProgramRun(env: Env, fs: FileSystem, lines: seq<string>, name: string, src: string, bin: string, files: string, option: string)
    requires Load(lines) == Ok(ProgramRecord(name, src, bin, files, Some(option)))
    requires env.system == "Windows" && (Found(env.which("g++")) || Found(env.which("cl")))
    requires files != "" && bin != "" && env.canCreate(bin)
    requires ValidateSources(env.join, Created(fs, bin), Some(src), files).Ok?
    ensures var compiler := if Found(env.which("g++")) then env.which("g++").value else env.which("cl").value;
      var sources := ValidateSources(env.join, Created(fs, bin), Some(src), files).value;
      var command := [compiler] + sources + ["-g", "-o", env.join(bin, name + ".exe"), ValidateOptions(option)];
      Orchestrate(env, fs, lines).effects == [MakeDirs(bin), Compile(command)]
  {
    assert BinaryName(env.system, name) == name + ".exe";
    OneProgramRun(env, fs, lines, name, src, bin, files, option);
  }
}
