/** The build-file reader (`load_bldfile`): a line-by-line scan that keeps a
    "current program" cursor and fills one dictionary per key. */
module BuildFile {
  import opened Wrappers
  import opened Text

  /** The per-program keys other than `prog`. */
  datatype Field = Src | Bin | Files | Options

  /** The key a field is written with in the build file. */
  function KeyName(f: Field): string {
    match f
    case Src => "src"
    case Bin => "bin"
    case Files => "file"
    case Options => "option"
  }

  function FieldNamed(key: string): (r: Option<Field>)
    ensures r.Some? ==> KeyName(r.value) == key
    ensures r.None? ==> forall f: Field :: KeyName(f) != key
  {
    if key == "src" then Some(Src)
    else if key == "bin" then Some(Bin)
    else if key == "file" then Some(Files)
    else if key == "option" then Some(Options)
    else None
  }

  /** `line.split('=', maxsplit=1)`: the text before the first `=` ... */
  function KeyOf(line: string): string
    requires '=' in line
  {
    line[..IndexOf(line, '=')]
  }

  /** ... and the text after it, which may hold further `=` characters. */
  function ValueOf(line: string): string
    requires '=' in line
  {
    line[IndexOf(line, '=') + 1..]
  }

  /** What one line of the build file says. */
  datatype Entry = Ignored | ProgLine(name: string) | FieldLine(field: Field, value: string)

  /** The text of a `key=value` line. */
  function Assignment(key: string, value: string): string {
    key + "=" + value
  }

  /** What one raw line of the build file says: it is stripped first. */
  function Classify(raw: string): Entry {
    ClassifyStripped(Trim(raw))
  }

  /** Blank lines, `#` comments and lines without `=` say nothing; otherwise the line is
      split at the first `=` and the key recognised, unknown keys saying nothing. */
  function ClassifyStripped(line: string): Entry {
    if line == [] || line[0] == '#' || '=' !in line then Ignored
    else
      var key, value := KeyOf(line), ValueOf(line);
      if key == "prog" then ProgLine(value)
      else match FieldNamed(key)
        case Some(f) => FieldLine(f, value)
        case None => Ignored
  }

  /** The five dictionaries the reader returns. `progs` is `progdic`: its keys in insertion
      order (every entry of `progdic` maps a name to itself). */
  datatype Config = Config(
    progs: seq<string>,
    src: map<string, string>,
    bin: map<string, string>,
    files: map<string, string>,
    options: map<string, string>)

  /** The dictionary that holds one field. */
  function FieldMap(c: Config, f: Field): map<string, string> {
    match f
    case Src => c.src
    case Bin => c.bin
    case Files => c.files
    case Options => c.options
  }

  /** Reader state: the dictionaries so far and the current program, if a `prog=` line was seen. */
  datatype Parser = Parser(config: Config, current: Option<string>)

  const Start := Parser(Config([], map[], map[], map[], map[]), None)

  /** Reading fails when a field line comes before any `prog=` line: Python raises
      `UnboundLocalError` on `prog`, which the reader's `except Exception` turns into an exit. */
  datatype LoadError = FieldBeforeProg(line: string)

  /** `d[name] = name` on an insertion-ordered dictionary: a new key goes last, an old one stays. */
  function AddProg(progs: seq<string>, name: string): seq<string> {
    if name in progs then progs else progs + [name]
  }

  function Store(c: Config, f: Field, prog: string, value: string): Config {
    match f
    case Src => c.(src := c.src[prog := value])
    case Bin => c.(bin := c.bin[prog := value])
    case Files => c.(files := c.files[prog := value])
    case Options => c.(options := c.options[prog := value])
  }

  /** The effect of one line on the reader state. */
  function ParseLine(p: Parser, raw: string): Result<Parser, LoadError> {
    var line := Trim(raw);
    Step(p, ClassifyStripped(line), line)
  }

  /** The effect on the reader state of what the stripped `line` says. */
  function Step(p: Parser, e: Entry, line: string): Result<Parser, LoadError> {
    match e
    case Ignored => Ok(p)
    case ProgLine(name) => Ok(Parser(p.config.(progs := AddProg(p.config.progs, name)), Some(name)))
    case FieldLine(f, value) =>
      match p.current
      case None => Err(FieldBeforeProg(line))
      case Some(prog) => Ok(p.(config := Store(p.config, f, prog, value)))
  }

  /** The lines processed in order from state `p`, stopping at the first failure. */
  function RunFrom(p: Parser, lines: seq<string>): Result<Parser, LoadError>
    decreases |lines|
  {
    if lines == [] then Ok(p)
    else
      match ParseLine(p, lines[0])
      case Err(e) => Err(e)
      case Ok(q) => RunFrom(q, lines[1..])
  }

  /** What `load_bldfile` returns for a file with these lines. */
  function Load(lines: seq<string>): Result<Config, LoadError> {
    match RunFrom(Start, lines)
    case Err(e) => Err(e)
    case Ok(p) => Ok(p.config)
  }

  /** Reading all of `lines` is the same as reading the rest of them from `p`. */
  ghost predicate ReadSoFar(lines: seq<string>, i: nat, p: Parser) {
    i <= |lines| && RunFrom(Start, lines) == RunFrom(p, lines[i..])
  }

  lemma RunFromSteps(p: Parser, q: Parser, lines: seq<string>, i: nat)
    requires i < |lines| && ParseLine(p, lines[i]) == Ok(q)
    requires ReadSoFar(lines, i, p)
    ensures ReadSoFar(lines, i + 1, q)
  {
    assert lines[i..][0] == lines[i] && lines[i..][1..] == lines[i + 1..];
  }

  lemma RunFromFails(p: Parser, lines: seq<string>, i: nat)
    requires i < |lines| && ParseLine(p, lines[i]).Err?
    requires ReadSoFar(lines, i, p)
    ensures Load(lines) == Err(ParseLine(p, lines[i]).error)
  {
    assert lines[i..][0] == lines[i];
  }

  /** `load_bldfile` over the file's lines: a loop that reassigns the cursor
      and updates the dictionaries in place. */
  method LoadBuildFile(lines: seq<string>) returns (r: Result<Config, LoadError>)
    ensures r == Load(lines)
  {
    var progs: seq<string> := [];
    var prog: Option<string> := None;
    var srcdic, bindic, filedic, optdic := map[], map[], map[], map[];
    var i := 0;
    assert lines[0..] == lines;
    assert Parser(Config(progs, srcdic, bindic, filedic, optdic), prog) == Start;
    assert ReadSoFar(lines, 0, Start);
    while i < |lines|
      invariant 0 <= i <= |lines|
      invariant ReadSoFar(lines, i, Parser(Config(progs, srcdic, bindic, filedic, optdic), prog))
    {
      ghost var before := Parser(Config(progs, srcdic, bindic, filedic, optdic), prog);
      match Classify(lines[i]) {
        case Ignored =>
        case ProgLine(name) =>
          if name !in progs {
            progs := progs + [name];
          }
          prog := Some(name);
        case FieldLine(f, value) =>
          if prog.None? {
            RunFromFails(before, lines, i);
            return Err(FieldBeforeProg(Trim(lines[i])));
          }
          match f {
            case Src => srcdic := srcdic[prog.value := value];
            case Bin => bindic := bindic[prog.value := value];
            case Files => filedic := filedic[prog.value := value];
            case Options => optdic := optdic[prog.value := value];
          }
      }
      RunFromSteps(before, Parser(Config(progs, srcdic, bindic, filedic, optdic), prog), lines, i);
      i := i + 1;
    }
    assert lines[i..] == [];
    assert ReadSoFar(lines, i, Parser(Config(progs, srcdic, bindic, filedic, optdic), prog));
    r := Ok(Config(progs, srcdic, bindic, filedic, optdic));
  }

  // Properties of a single line

  /** Splitting at the first `=` loses nothing: key, `=` and value give back the line,
      and the key holds no `=`. */
  lemma SplitAtFirstEquals(line: string)
    requires '=' in line
    ensures line == Assignment(KeyOf(line), ValueOf(line))
    ensures '=' !in KeyOf(line)
  {
    var i := IndexOf(line, '=');
    assert line == line[..i] + [line[i]] + line[i + 1..];
  }

  /** The key and value of `key=value`, for a key without `=`. */
  lemma SplitOfJoined(key: string, value: string)
    requires '=' !in key
    ensures '=' in Assignment(key, value)
    ensures KeyOf(Assignment(key, value)) == key && ValueOf(Assignment(key, value)) == value
  {
    var line := Assignment(key, value);
    assert line[|key|] == '=';
    assert line[..|key|] == key;
    IndexOfUnique(line, '=', |key|);
    assert line[|key| + 1..] == value;
  }

  lemma ReadsAsProg(line: string, v: string)
    requires line == Assignment("prog", v)
    ensures ClassifyStripped(line) == ProgLine(v)
  {
    SplitOfJoined("prog", v);
    assert line[0] == 'p';
  }

  lemma ReadsAsField(line: string, f: Field, w: string)
    requires line == Assignment(KeyName(f), w)
    ensures ClassifyStripped(line) == FieldLine(f, w)
  {
    SplitOfJoined(KeyName(f), w);
    assert line[0] == KeyName(f)[0];
  }

  /** A stripped line declares program `v` exactly when it reads `prog=v`: the value is
      everything after the first `=`, further `=` included. */
  lemma ProgLineExact(line: string, v: string)
    ensures ClassifyStripped(line) == ProgLine(v) <==> line == Assignment("prog", v)
  {
    if ClassifyStripped(line) == ProgLine(v) {
      SplitAtFirstEquals(line);
    }
    if line == Assignment("prog", v) {
      ReadsAsProg(line, v);
    }
  }

  /** A stripped line sets field `f` to `w` exactly when it reads `<key of f>=w`. */
  lemma FieldLineExact(line: string, f: Field, w: string)
    ensures ClassifyStripped(line) == FieldLine(f, w) <==> line == Assignment(KeyName(f), w)
  {
    if ClassifyStripped(line) == FieldLine(f, w) {
      SplitAtFirstEquals(line);
    }
    if line == Assignment(KeyName(f), w) {
      ReadsAsField(line, f, w);
    }
  }

  /** Blank lines, comments, lines without `=` and lines whose key is not one of the five
      leave the reader state as it was. */
  lemma IgnoredLeavesState(p: Parser, raw: string)
    requires '=' !in Trim(raw) || KeyOf(Trim(raw)) !in ["prog", "src", "bin", "file", "option"]
    ensures ParseLine(p, raw) == Ok(p)
  {
  }

  /** `prog=N` makes N current and lists it once, at its first appearance; no dictionary
      of fields changes. */
  lemma ProgLineDeclares(p: Parser, raw: string, n: string)
    requires Trim(raw) == Assignment("prog", n)
    ensures ParseLine(p, raw).Ok?
    ensures var q := ParseLine(p, raw).value;
      q.current == Some(n) &&
      (n in p.config.progs ==> q.config.progs == p.config.progs) &&
      (n !in p.config.progs ==> q.config.progs == p.config.progs + [n]) &&
      q.config.(progs := p.config.progs) == p.config
  {
    ReadsAsProg(Trim(raw), n);
    assert ParseLine(p, raw) == Step(p, ProgLine(n), Trim(raw));
  }

  /** A field entry is stored under the current program; no other program's entry and
      no other dictionary changes. */
  lemma StepStores(p: Parser, f: Field, w: string, line: string)
    requires p.current.Some?
    ensures Step(p, FieldLine(f, w), line).Ok?
    ensures var q := Step(p, FieldLine(f, w), line).value;
      q.current == p.current && q.config.progs == p.config.progs &&
      FieldMap(q.config, f) == FieldMap(p.config, f)[p.current.value := w] &&
      forall g :: g != f ==> FieldMap(q.config, g) == FieldMap(p.config, g)
  {
  }

  /** The same, for a raw line `<key>=<value>`. */
  lemma FieldLineStores(p: Parser, raw: string, f: Field, w: string)
    requires Trim(raw) == Assignment(KeyName(f), w)
    requires p.current.Some?
    ensures ParseLine(p, raw).Ok?
    ensures var q := ParseLine(p, raw).value;
      q.current == p.current && q.config.progs == p.config.progs &&
      FieldMap(q.config, f) == FieldMap(p.config, f)[p.current.value := w] &&
      forall g :: g != f ==> FieldMap(q.config, g) == FieldMap(p.config, g)
  {
    ReadsAsField(Trim(raw), f, w);
    StepStores(p, f, w, Trim(raw));
  }

  /** A field line while no program is current makes reading fail. */
  lemma FieldLineBeforeProgFails(p: Parser, raw: string, f: Field, w: string)
    requires Trim(raw) == Assignment(KeyName(f), w)
    requires p.current.None?
    ensures ParseLine(p, raw) == Err(FieldBeforeProg(Trim(raw)))
  {
    ReadsAsField(Trim(raw), f, w);
  }

  lemma StepLastWins(p: Parser, f: Field, v: string, w: string, first: string, second: string)
    requires p.current.Some?
    ensures Step(p, FieldLine(f, v), first).Ok?
    ensures Step(Step(p, FieldLine(f, v), first).value, FieldLine(f, w), second) == Step(p, FieldLine(f, w), second)
  {
    var n := p.current.value;
    match f
    case Src => assert p.config.src[n := v][n := w] == p.config.src[n := w];
    case Bin => assert p.config.bin[n := v][n := w] == p.config.bin[n := w];
    case Files => assert p.config.files[n := v][n := w] == p.config.files[n := w];
    case Options => assert p.config.options[n := v][n := w] == p.config.options[n := w];
  }

  /** Setting the same field of the same program twice keeps only the later value. */
  lemma LastWins(p: Parser, first: string, second: string, f: Field, v: string, w: string)
    requires Trim(first) == Assignment(KeyName(f), v)
    requires Trim(second) == Assignment(KeyName(f), w)
    requires p.current.Some?
    ensures ParseLine(p, first).Ok?
    ensures ParseLine(ParseLine(p, first).value, second) == ParseLine(p, second)
  {
    ReadsAsField(Trim(first), f, v);
    ReadsAsField(Trim(second), f, w);
    StepLastWins(p, f, v, w, Trim(first), Trim(second));
  }

  // Properties of a whole file

  /** The program an entry declares, if any. */
  function DeclOf(e: Entry): seq<string> {
    if e.ProgLine? then [e.name] else []
  }

  /** The program names of the `prog=` lines, in file order, repeats included. */
  function Declared(lines: seq<string>): seq<string>
    decreases |lines|
  {
    if lines == [] then [] else Declared(lines[..|lines| - 1]) + DeclOf(Classify(lines[|lines| - 1]))
  }

  lemma DeclaredSnoc(a: seq<string>, l: string)
    ensures Declared(a + [l]) == Declared(a) + DeclOf(Classify(l))
  {
    assert (a + [l])[..|a|] == a;
  }

  predicate NoDuplicates(s: seq<string>) {
    forall i, j :: 0 <= i < j < |s| ==> s[i] != s[j]
  }

  /** `order` lists each name of `decls` once, ordered by where the name first occurs. */
  ghost predicate FirstAppearanceOrder(order: seq<string>, decls: seq<string>) {
    NoDuplicates(order) &&
    (forall x :: x in order <==> x in decls) &&
    forall i, j :: 0 <= i < j < |order| ==> IndexOf(decls, order[i]) < IndexOf(decls, order[j])
  }

  /** What a reader state says about the program names declared so far: they are listed in
      first-appearance order, the last one is current, and only listed programs have fields. */
  ghost predicate SummaryOf(p: Parser, decls: seq<string>) {
    FirstAppearanceOrder(p.config.progs, decls) &&
    p.current == (if decls == [] then None else Some(decls[|decls| - 1])) &&
    forall f, n :: n in FieldMap(p.config, f) ==> n in p.config.progs
  }

  lemma IndexOfPrefix(a: seq<string>, b: seq<string>, x: string)
    requires x in a
    ensures IndexOf(a + b, x) == IndexOf(a, x)
  {
    var i := IndexOf(a, x);
    assert (a + b)[..i] == a[..i];
    IndexOfUnique(a + b, x, i);
  }

  /** Declaring `n` after `decls` keeps the first-appearance order of the program list. */
  lemma DeclareKeepsOrder(order: seq<string>, decls: seq<string>, n: string)
    requires FirstAppearanceOrder(order, decls)
    ensures FirstAppearanceOrder(AddProg(order, n), decls + [n])
  {
    var decls' := decls + [n];
    forall x | x in decls
      ensures IndexOf(decls', x) == IndexOf(decls, x)
    {
      IndexOfPrefix(decls, [n], x);
    }
    if n !in order {
      assert n !in decls;
      assert decls'[..|decls|] == decls;
      IndexOfUnique(decls', n, |decls|);
      var order' := order + [n];
      forall i, j | 0 <= i < j < |order'|
        ensures order'[i] != order'[j] && IndexOf(decls', order'[i]) < IndexOf(decls', order'[j])
      {
        if j == |order| {
          assert order'[i] == order[i] && order[i] in decls;
        }
      }
    }
  }

  /** One entry keeps the summary true. */
  lemma StepSummary(p: Parser, decls: seq<string>, e: Entry, line: string)
    requires SummaryOf(p, decls)
    requires Step(p, e, line).Ok?
    ensures SummaryOf(Step(p, e, line).value, decls + DeclOf(e))
  {
    match e
    case Ignored =>
      assert decls + DeclOf(e) == decls;
    case FieldLine(f, w) =>
      assert decls + DeclOf(e) == decls;
      var q := Step(p, e, line).value;
      forall g, n | n in FieldMap(q.config, g)
        ensures n in q.config.progs
      {
        assert n in FieldMap(p.config, g) || n == p.current.value;
      }
    case ProgLine(n) =>
      DeclareKeepsOrder(p.config.progs, decls, n);
      var q := Step(p, e, line).value;
      forall g, m | m in FieldMap(q.config, g)
        ensures m in q.config.progs
      {
        assert FieldMap(q.config, g) == FieldMap(p.config, g);
      }
  }

  /** A step fails exactly on a field entry while no program is current. */
  lemma StepFails(p: Parser, e: Entry, line: string)
    ensures Step(p, e, line).Err? <==> e.FieldLine? && p.current.None?
  {
  }

  /** Reading `a` then one more line. */
  lemma {:induction false} RunFromSnoc(p: Parser, a: seq<string>, l: string)
    ensures RunFrom(p, a + [l]) ==
      match RunFrom(p, a)
      case Err(e) => Err(e)
      case Ok(q) => ParseLine(q, l)
    decreases |a|
  {
    if a == [] {
      assert [] + [l] == [l];
    } else {
      assert (a + [l])[0] == a[0] && (a + [l])[1..] == a[1..] + [l];
      match ParseLine(p, a[0])
      case Err(e) =>
      case Ok(q) => RunFromSnoc(q, a[1..], l);
    }
  }

  /** Once reading has failed, later lines do not matter. */
  lemma {:induction false} FailureIsFinal(p: Parser, a: seq<string>, b: seq<string>)
    requires RunFrom(p, a).Err?
    ensures RunFrom(p, a + b) == RunFrom(p, a)
    decreases |a|
  {
    assert a != [];
    assert (a + b)[0] == a[0] && (a + b)[1..] == a[1..] + b;
    match ParseLine(p, a[0])
    case Err(e) =>
    case Ok(q) => FailureIsFinal(q, a[1..], b);
  }

  /** The reader state after any successful prefix of the file summarises it. */
  lemma {:induction false} RunSummarises(lines: seq<string>)
    requires RunFrom(Start, lines).Ok?
    ensures SummaryOf(RunFrom(Start, lines).value, Declared(lines))
    decreases |lines|
  {
    if lines != [] {
      var a, l := lines[..|lines| - 1], lines[|lines| - 1];
      LastSplit(lines);
      FailureKeepsFailing(a, l);
      RunSummarises(a);
      SummaryStepLine(a, l);
    }
  }

  /** One more line keeps the summary of a successful prefix. */
  lemma SummaryStepLine(a: seq<string>, l: string)
    requires RunFrom(Start, a).Ok? && RunFrom(Start, a + [l]).Ok?
    requires SummaryOf(RunFrom(Start, a).value, Declared(a))
    ensures SummaryOf(RunFrom(Start, a + [l]).value, Declared(a + [l]))
  {
    var p := RunFrom(Start, a).value;
    RunFromSnoc(Start, a, l);
    assert ParseLine(p, l) == Step(p, Classify(l), Trim(l));
    StepSummary(p, Declared(a), Classify(l), Trim(l));
    DeclaredSnoc(a, l);
  }

  lemma FailureKeepsFailing(a: seq<string>, l: string)
    requires RunFrom(Start, a + [l]).Ok?
    ensures RunFrom(Start, a).Ok?
  {
    if RunFrom(Start, a).Err? {
      FailureIsFinal(Start, a, [l]);
    }
  }

  /** The dictionaries list every declared program once, in first-appearance order, and hold
      entries only for declared programs. */
  lemma ProgramOrder(lines: seq<string>)
    requires Load(lines).Ok?
    ensures var c := Load(lines).value;
      FirstAppearanceOrder(c.progs, Declared(lines)) &&
      forall f, n :: n in FieldMap(c, f) ==> n in c.progs
  {
    RunSummarises(lines);
  }

  lemma SliceSnoc<T>(s: seq<T>, k: nat)
    requires k < |s|
    ensures s[..k + 1] == s[..k] + [s[k]] && s == s[..k + 1] + s[k + 1..]
  {
  }

  lemma LastSplit<T>(s: seq<T>)
    requires s != []
    ensures s == s[..|s| - 1] + [s[|s| - 1]]
  {
  }

  /** A field line with no `prog=` line before it. */
  ghost predicate FieldBeforeAnyProg(lines: seq<string>, k: int) {
    0 <= k < |lines| && Classify(lines[k]).FieldLine? && Declared(lines[..k]) == []
  }

  /** After a successful prefix, a program is current exactly when one was declared. */
  lemma RunCurrent(a: seq<string>)
    requires RunFrom(Start, a).Ok?
    ensures RunFrom(Start, a).value.current.None? <==> Declared(a) == []
  {
    RunSummarises(a);
  }

  /** Reading `a + [l]` fails at `l` exactly when `l` is a field line and `a` declares nothing. */
  lemma FailsAtLast(a: seq<string>, l: string)
    requires RunFrom(Start, a).Ok?
    ensures RunFrom(Start, a + [l]).Err? <==> Classify(l).FieldLine? && Declared(a) == []
  {
    var p := RunFrom(Start, a).value;
    RunFromSnoc(Start, a, l);
    RunCurrent(a);
    assert ParseLine(p, l) == Step(p, Classify(l), Trim(l));
    StepFails(p, Classify(l), Trim(l));
  }

  /** A witness in all lines but the last is a witness in all lines. */
  lemma WitnessExtends(lines: seq<string>, k: int)
    requires lines != [] && FieldBeforeAnyProg(lines[..|lines| - 1], k)
    ensures FieldBeforeAnyProg(lines, k)
  {
    var a := lines[..|lines| - 1];
    assert lines[k] == a[k] && lines[..k] == a[..k];
  }

  /** Reading fails only at a field line that precedes every `prog=` line. */
  lemma {:induction false} LoadFailsOnlyBeforeProg(lines: seq<string>)
    requires RunFrom(Start, lines).Err?
    ensures exists k :: FieldBeforeAnyProg(lines, k)
    decreases |lines|
  {
    assert lines != [];
    var a, l := lines[..|lines| - 1], lines[|lines| - 1];
    if RunFrom(Start, a).Err? {
      LoadFailsOnlyBeforeProg(a);
      var k :| FieldBeforeAnyProg(a, k);
      WitnessExtends(lines, k);
    } else {
      LastSplit(lines);
      FailsAtLast(a, l);
      assert FieldBeforeAnyProg(lines, |a|);
    }
  }

  /** A field line that precedes every `prog=` line makes reading fail. */
  lemma FieldBeforeProgFailsLoad(lines: seq<string>, k: int)
    requires FieldBeforeAnyProg(lines, k)
    ensures RunFrom(Start, lines).Err?
  {
    var a, l := lines[..k], lines[k];
    var upTo, rest := lines[..k + 1], lines[k + 1..];
    SliceSnoc(lines, k);
    if RunFrom(Start, a).Ok? {
      FailsAtLast(a, l);
    } else {
      FailureIsFinal(Start, a, [l]);
    }
    assert RunFrom(Start, upTo).Err?;
    FailureIsFinal(Start, upTo, rest);
  }

  /** Reading fails exactly when some field line comes before every `prog=` line. */
  lemma LoadFailsIff(lines: seq<string>)
    ensures Load(lines).Err? <==> exists k :: FieldBeforeAnyProg(lines, k)
  {
    if Load(lines).Err? {
      LoadFailsOnlyBeforeProg(lines);
    }
    if exists k :: FieldBeforeAnyProg(lines, k) {
      var k :| FieldBeforeAnyProg(lines, k);
      FieldBeforeProgFailsLoad(lines, k);
    }
  }
}
