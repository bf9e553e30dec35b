/**
 * The loop over input files in `main` (src/main.rs lines 105-112): each
 * file is extracted in turn, an error is reported on stderr and the loop
 * goes on, and a panic ends the process.
 */
module Driver {
  import opened Paths
  import opened DwarfExtractor
  import ExtractorLemmas

  datatype InputFile = InputFile(path: Path, loaded: Loaded)

  /** `effects` followed by a later run. */
  function Then(effects: seq<Effect>, rest: FileRun): (r: FileRun)
    ensures r.exit == rest.exit && r.effects == effects + rest.effects
  {
    FileRun(effects + rest.effects, rest.exit)
  }

  /** The effects of processing `inputs` in order; the loop itself never fails. */
  function RunFiles(outputDir: Path, inputs: seq<InputFile>, env: Env): (r: FileRun)
    ensures !r.exit.Failed?
    decreases |inputs|
  {
    if inputs == [] then FileRun([], Completed)
    else
      var f := Extract(inputs[0].path, outputDir, inputs[0].loaded, env);
      match f.exit
      case Panicked(_) => f
      case Completed => Then(f.effects, RunFiles(outputDir, inputs[1..], env))
      case Failed(e) => Then(f.effects + [FileFailed(inputs[0].path, e)], RunFiles(outputDir, inputs[1..], env))
  }

  lemma RunFilesAt(outputDir: Path, inputs: seq<InputFile>, env: Env, i: nat)
    requires i < |inputs|
    ensures var f := Extract(inputs[i].path, outputDir, inputs[i].loaded, env);
      RunFiles(outputDir, inputs[i..], env) ==
        match f.exit
        case Panicked(_) => f
        case Completed => Then(f.effects, RunFiles(outputDir, inputs[i + 1..], env))
        case Failed(e) => Then(f.effects + [FileFailed(inputs[i].path, e)], RunFiles(outputDir, inputs[i + 1..], env))
  {
    assert inputs[i..][0] == inputs[i] && inputs[i..][1..] == inputs[i + 1..];
  }

  lemma ThenThen(a: seq<Effect>, b: seq<Effect>, rest: FileRun)
    ensures Then(a, Then(b, rest)) == Then(a + b, rest)
  {
    assert a + (b + rest.effects) == (a + b) + rest.effects;
  }

  method Run(outputDir: Path, inputs: seq<InputFile>, env: Env) returns (effects: seq<Effect>, exit: Exit)
    ensures FileRun(effects, exit) == RunFiles(outputDir, inputs, env)
  {
    effects := [];
    assert inputs[0..] == inputs;
    for i := 0 to |inputs|
      invariant RunFiles(outputDir, inputs, env) == Then(effects, RunFiles(outputDir, inputs[i..], env))
    {
      RunFilesAt(outputDir, inputs, env, i);
      ghost var rest := RunFiles(outputDir, inputs[i + 1..], env);
      var fileEffects, fileExit := ExtractFromFile(inputs[i].path, outputDir, inputs[i].loaded, env);
      match fileExit {
        case Completed =>
          ThenThen(effects, fileEffects, rest);
          effects := effects + fileEffects;
        case Failed(e) =>
          ThenThen(effects, fileEffects + [FileFailed(inputs[i].path, e)], rest);
          effects := effects + (fileEffects + [FileFailed(inputs[i].path, e)]);
        case Panicked(p) =>
          return effects + fileEffects, Panicked(p);
      }
    }
    exit := Completed;
  }

  /** The run reaches the end of the file list exactly when no file panics. */
  lemma {:induction false} RunCompletesUnlessPanic(outputDir: Path, inputs: seq<InputFile>, env: Env)
    ensures RunFiles(outputDir, inputs, env).exit.Completed? <==>
      forall i :: 0 <= i < |inputs| ==> !Extract(inputs[i].path, outputDir, inputs[i].loaded, env).exit.Panicked?
    decreases |inputs|
  {
    if inputs != [] {
      RunCompletesUnlessPanic(outputDir, inputs[1..], env);
      forall i | 1 <= i < |inputs|
        ensures inputs[i] == inputs[1..][i - 1]
      {
      }
    }
  }

  /**
   * A file that failed is reported with its error unless it or an earlier
   * file panicked; files after it may panic.
   */
  lemma {:induction false} RunReportsEveryFailure(outputDir: Path, inputs: seq<InputFile>, env: Env, i: nat)
    requires i < |inputs|
    requires forall j :: 0 <= j <= i ==> !Extract(inputs[j].path, outputDir, inputs[j].loaded, env).exit.Panicked?
    requires Extract(inputs[i].path, outputDir, inputs[i].loaded, env).exit.Failed?
    ensures FileFailed(inputs[i].path, Extract(inputs[i].path, outputDir, inputs[i].loaded, env).exit.error)
            in RunFiles(outputDir, inputs, env).effects
    decreases i
  {
    if i > 0 {
      assert !Extract(inputs[0].path, outputDir, inputs[0].loaded, env).exit.Panicked?;
      forall j | 0 <= j <= i - 1
        ensures !Extract(inputs[1..][j].path, outputDir, inputs[1..][j].loaded, env).exit.Panicked?
      {
        assert inputs[1..][j] == inputs[j + 1];
      }
      assert inputs[1..][i - 1] == inputs[i];
      RunReportsEveryFailure(outputDir, inputs[1..], env, i - 1);
    }
  }

  /**
   * Two input files with the same file name, from any directories: whatever
   * output path the second one creates holds the second one's bytes at the
   * end, overwriting the first one's.
   */
  lemma LaterFileOverwrites(outputDir: Path, first: InputFile, second: InputFile, env: Env, p: Path)
    requires !Extract(first.path, outputDir, first.loaded, env).exit.Panicked?
    requires Create(p) in Extract(second.path, outputDir, second.loaded, env).effects
    ensures var all := RunFiles(outputDir, [first, second], env).effects;
      var own := Extract(second.path, outputDir, second.loaded, env).effects;
      p in Files(all) && p in Files(own) && Files(all)[p] == Files(own)[p]
  {
    var f1 := Extract(first.path, outputDir, first.loaded, env);
    var f2 := Extract(second.path, outputDir, second.loaded, env);
    var inputs := [first, second];
    assert inputs[1..] == [second] && inputs[1..][1..] == [];
    var tail := if f2.exit.Failed? then f2.effects + [FileFailed(second.path, f2.exit.error)] else f2.effects;
    assert RunFiles(outputDir, [second], env).effects == tail;
    var head := if f1.exit.Failed? then f1.effects + [FileFailed(first.path, f1.exit.error)] else f1.effects;
    assert RunFiles(outputDir, inputs, env).effects == head + tail;
    ExtractorLemmas.CreateResets(head, tail, p);
    if f2.exit.Failed? {
      ExtractorLemmas.DiagnosticKeepsFiles(f2.effects, FileFailed(second.path, f2.exit.error));
    }
  }
}
