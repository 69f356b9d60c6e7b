/**
 * Running the collected work (the task queue of `ParallelProcessor` and
 * the end of `process_directory`, main.cpp:29-105 and 520-542) and the
 * exit code of `main` (main.cpp:545-591).
 */
module Batch {
  import opened Base
  import opened Paths
  import opened Config
  import opened Rules
  import opened Traverse
  import opened Convert

  // ------------------------------------------------------------ workers

  /** The worker count as main.cpp:38 computes it from
      `std::thread::hardware_concurrency()`. */
  function WorkerCountAsWritten(hardwareConcurrency: nat): nat
  {
    if hardwareConcurrency != 0 then 0 else 2
  }

  /** On every machine that reports its number of hardware threads, the pool
      as written starts no worker, so no queued conversion ever runs. */
  lemma NoWorkerWhenConcurrencyKnown(hardwareConcurrency: nat)
    requires hardwareConcurrency > 0
    ensures WorkerCountAsWritten(hardwareConcurrency) == 0
  {
  }

  /** The worker count as intended: the hardware thread count, or 2 when
      it is unknown. */
  function WorkerCount(hardwareConcurrency: nat): (n: nat)
    ensures n >= 1
    ensures hardwareConcurrency > 0 ==> n == hardwareConcurrency
  {
    if hardwareConcurrency != 0 then hardwareConcurrency else 2
  }

  // -------------------------------------------------------------- tasks

  /** Every work item converts successfully. */
  predicate AllSucceed(opts: Options, env: Env, items: seq<WorkItem>)
  {
    forall i | 0 <= i < |items| :: ProcessFile(opts, env, items[i].input, items[i].output).ok
  }

  /** The effects of running the items one after the other. */
  function TaskEffects(opts: Options, env: Env, items: seq<WorkItem>): seq<Effect>
  {
    if items == [] then []
    else
      var last := items[|items| - 1];
      TaskEffects(opts, env, items[..|items| - 1]) + ProcessFile(opts, env, last.input, last.output).effects
  }

  /** The workers drain the queue: each task runs once, and a task that
      returns false sets `has_error` (main.cpp:46-66). A pool with no worker
      runs nothing: its destructor drops the queued tasks and `has_error`
      stays false (main.cpp:72-84). */
  method RunTasks(workers: nat, opts: Options, env: Env, items: seq<WorkItem>)
    returns (hasError: bool, effects: seq<Effect>)
    ensures workers >= 1 ==> (hasError <==> !AllSucceed(opts, env, items))
    ensures workers >= 1 ==> effects == TaskEffects(opts, env, items)
    ensures workers == 0 ==> !hasError && effects == []
  {
    hasError, effects := false, [];
    if workers == 0 {
      return;
    }
    for k := 0 to |items|
      invariant hasError <==> !AllSucceed(opts, env, items[..k])
      invariant effects == TaskEffects(opts, env, items[..k])
    {
      var run := ProcessFile(opts, env, items[k].input, items[k].output);
      TaskStep(opts, env, items, k);
      if !run.ok {
        hasError := true;
      }
      effects := effects + run.effects;
    }
    assert items[..|items|] == items;
  }

  /** Running one more task: the verdict is AND-ed with its result and its
      effects are appended. */
  lemma TaskStep(opts: Options, env: Env, items: seq<WorkItem>, k: nat)
    requires k < |items|
    ensures var run := ProcessFile(opts, env, items[k].input, items[k].output);
      && AllSucceed(opts, env, items[..k + 1]) == (AllSucceed(opts, env, items[..k]) && run.ok)
      && TaskEffects(opts, env, items[..k + 1]) == TaskEffects(opts, env, items[..k]) + run.effects
  {
    assert items[..k + 1][..k] == items[..k];
    assert items[..k + 1][k] == items[k];
  }

  /** The verdict does not depend on the order in which tasks are queued or
      finish: it is an AND over the items. */
  lemma VerdictIgnoresOrder(opts: Options, env: Env, items: seq<WorkItem>, others: seq<WorkItem>)
    requires multiset(items) == multiset(others)
    ensures AllSucceed(opts, env, items) == AllSucceed(opts, env, others)
  {
    forall xs: seq<WorkItem>, ys: seq<WorkItem> | multiset(xs) == multiset(ys) && !AllSucceed(opts, env, xs)
      ensures !AllSucceed(opts, env, ys)
    {
      var i :| 0 <= i < |xs| && !ProcessFile(opts, env, xs[i].input, xs[i].output).ok;
      assert xs[i] in multiset(ys);
      var j :| 0 <= j < |ys| && ys[j] == xs[i];
    }
  }

  /** A dry run touches no file, whatever the verdict. */
  lemma {:induction false} DryRunHasNoEffects(opts: Options, env: Env, items: seq<WorkItem>)
    requires opts.dryRun
    ensures TaskEffects(opts, env, items) == []
  {
    if items != [] {
      DryRunHasNoEffects(opts, env, items[..|items| - 1]);
    }
  }

  /** Every file one item writes is that item's output, at most twice
      as long as its input. */
  lemma ItemWritesOnlyItsOutput(opts: Options, env: Env, item: WorkItem, k: nat)
    requires var run := ProcessFile(opts, env, item.input, item.output);
      k < |run.effects| && run.effects[k].WriteFile?
    ensures var effect := ProcessFile(opts, env, item.input, item.output).effects[k];
      && effect.file == item.output
      && env.read(item.input).Some?
      && |effect.bytes| <= 2 * |env.read(item.input).value|
  {
  }

  /** Every file written is the output of one of the items, and what is
      written is at most twice as long as that item's input. */
  lemma {:induction false} WritesOnlyOutputs(opts: Options, env: Env, items: seq<WorkItem>, k: nat)
    requires k < |TaskEffects(opts, env, items)| && TaskEffects(opts, env, items)[k].WriteFile?
    ensures exists i | 0 <= i < |items| ::
      && items[i].output == TaskEffects(opts, env, items)[k].file
      && env.read(items[i].input).Some?
      && |TaskEffects(opts, env, items)[k].bytes| <= 2 * |env.read(items[i].input).value|
  {
    var n := |items|;
    var init := items[..n - 1];
    var before := TaskEffects(opts, env, init);
    var last := items[n - 1];
    var after := ProcessFile(opts, env, last.input, last.output).effects;
    var effect := TaskEffects(opts, env, items)[k];
    assert TaskEffects(opts, env, items) == before + after;
    if k < |before| {
      assert effect == before[k];
      WritesOnlyOutputs(opts, env, init, k);
      var i :| 0 <= i < |init| && init[i].output == effect.file
        && env.read(init[i].input).Some?
        && |effect.bytes| <= 2 * |env.read(init[i].input).value|;
      assert items[i] == init[i];
    } else {
      assert effect == after[k - |before|];
      ItemWritesOnlyItsOutput(opts, env, last, k - |before|);
      assert items[n - 1] == last;
    }
  }

  // ---------------------------------------------------------- directory

  /** The verdict and effects of `process_directory`; `listing` is `None`
      when iterating the directory throws. */
  function DirectoryRun(opts: Options, re: RegexEngine, env: Env, inputDir: Path, outputDir: Path, listing: Option<seq<Entry>>): (run: Run)
    ensures listing.None? ==> run == Run(false, [])
    ensures run.ok <==>
      listing.Some? && AllSucceed(opts, env, Collected(opts, re, inputDir, outputDir, listing.value))
  {
    match listing
    case None => Run(false, [])
    case Some(entries) =>
      var items := Collected(opts, re, inputDir, outputDir, entries);
      Run(AllSucceed(opts, env, items), TaskEffects(opts, env, items))
  }

  /** A dry run over a directory touches no file. */
  lemma DirectoryDryRunHasNoEffects(opts: Options, re: RegexEngine, env: Env, inputDir: Path, outputDir: Path, listing: Option<seq<Entry>>)
    requires opts.dryRun
    ensures DirectoryRun(opts, re, env, inputDir, outputDir, listing).effects == []
  {
    if listing.Some? {
      DryRunHasNoEffects(opts, env, Collected(opts, re, inputDir, outputDir, listing.value));
    }
  }

  /** `process_directory` with a pool of `workers` threads, running the
      tasks to completion before its verdict is read. An empty selection
      succeeds at once; a pool without workers converts nothing and reports
      success. */
  method ProcessDirectory(opts: Options, re: RegexEngine, env: Env, inputDir: Path, outputDir: Path,
                          listing: Option<seq<Entry>>, workers: nat)
    returns (ok: bool, effects: seq<Effect>)
    ensures workers >= 1 ==> Run(ok, effects) == DirectoryRun(opts, re, env, inputDir, outputDir, listing)
    ensures workers == 0 ==> ok == listing.Some? && effects == []
    ensures listing.Some? && Collected(opts, re, inputDir, outputDir, listing.value) == [] ==> ok && effects == []
  {
    if listing.None? {
      return false, [];
    }
    var filePairs, hasProcessedFile := CollectWorkItems(opts, re, inputDir, outputDir, listing.value);
    if !hasProcessedFile {
      return true, [];
    }
    var hasError;
    hasError, effects := RunTasks(workers, opts, env, filePairs);
    ok := !hasError;
  }

  /** `process_directory` with the pool sized as main.cpp:38 sizes it: on a
      machine that reports its thread count, every listed directory
      "succeeds" and nothing is converted. */
  method ProcessDirectoryAsWritten(opts: Options, re: RegexEngine, env: Env, inputDir: Path, outputDir: Path,
                                   listing: Option<seq<Entry>>, hardwareConcurrency: nat)
    returns (ok: bool, effects: seq<Effect>)
    ensures hardwareConcurrency > 0 ==> ok == listing.Some? && effects == []
    ensures hardwareConcurrency == 0 ==> Run(ok, effects) == DirectoryRun(opts, re, env, inputDir, outputDir, listing)
  {
    ok, effects := ProcessDirectory(opts, re, env, inputDir, outputDir, listing, WorkerCountAsWritten(hardwareConcurrency));
  }

  /** A directory holding one file `a.txt` that converts: the intended run
      writes its conversion and succeeds, while the run as written reports
      the same success with no file written. */
  lemma AsWrittenDropsConversion(re: RegexEngine, env: Env)
    requires env.read(Path(true, ["in", "a.txt"])).Some? && env.read(Path(true, ["in", "a.txt"])).value == [65 as byte]
    requires env.detect([65 as byte]) == "ASCII" && env.opens("UTF-8", "ASCII")
    requires env.iconv("ASCII", "UTF-8", [65 as byte]) == Some([65 as byte])
    requires env.makeDirectories(Path(true, ["out"])) && env.creates(Path(true, ["out", "a.txt"]))
    ensures var run := DirectoryRun(Options(false, false, None, None, "UTF-8"), re, env,
                                    Path(true, ["in"]), Path(true, ["out"]), Some([Entry(["a.txt"], true, false)]));
      run.ok && run.effects == [CreateDirectories(Path(true, ["out"])), WriteFile(Path(true, ["out", "a.txt"]), [65 as byte])]
  {
    var opts := Options(false, false, None, None, "UTF-8");
    var entries := [Entry(["a.txt"], true, false)];
    var input := Path(true, ["in", "a.txt"]);
    var output := Path(true, ["out", "a.txt"]);
    assert EntryPath(Path(true, ["in"]), entries[0]) == input;
    assert FilenamePath(input) == Path(false, ["a.txt"]);
    assert Destination(opts, Path(true, ["in"]), Path(true, ["out"]), entries[0]) == output;
    assert Selected(opts, re, Path(true, ["in"]), entries[0]);
    assert entries[..0] == [];
    var items := Collected(opts, re, Path(true, ["in"]), Path(true, ["out"]), entries);
    assert items == [WorkItem(input, output)];
    assert ParentPath(output) == Path(true, ["out"]);
    assert Conversion(env, input, "ASCII", output, "UTF-8") == Some([65 as byte]);
    assert items[..0] == [];
    assert TaskEffects(opts, env, items) == ProcessFile(opts, env, input, output).effects;
  }

  // --------------------------------------------------------------- main

  /** `main` after the options are parsed and the input and output made
      absolute: `inputExists` is `fs::exists(input)`, `inputIsDirectory` is
      `fs::is_directory(input)`, `listing` the entries its iterator yields. */
  method RunMain(opts: Options, re: RegexEngine, env: Env, input: Path, output: Path,
                 inputExists: bool, inputIsDirectory: bool, listing: Option<seq<Entry>>, hardwareConcurrency: nat)
    returns (exitCode: int, effects: seq<Effect>)
    ensures exitCode == 0 || exitCode == 1
    ensures exitCode == 1 <==>
      || !inputExists
      || (inputIsDirectory && !DirectoryRun(opts, re, env, input, output, listing).ok)
      || (!inputIsDirectory && !ShouldIncludeSuffix(opts, re, input))
      || (!inputIsDirectory && !ProcessFile(opts, env, input, output).ok)
    ensures !inputExists ==> effects == []
    ensures opts.dryRun ==> effects == []
    ensures !inputIsDirectory && !ShouldIncludeSuffix(opts, re, input) ==> effects == []
    ensures inputExists && inputIsDirectory ==> effects == DirectoryRun(opts, re, env, input, output, listing).effects
    ensures inputExists && !inputIsDirectory && ShouldIncludeSuffix(opts, re, input) ==>
      effects == ProcessFile(opts, env, input, output).effects
  {
    effects := [];
    var hasFailed := false;
    if !inputExists {
      return 1, [];
    }
    if inputIsDirectory {
      var ok;
      ok, effects := ProcessDirectory(opts, re, env, input, output, listing, WorkerCount(hardwareConcurrency));
      if opts.dryRun {
        DirectoryDryRunHasNoEffects(opts, re, env, input, output, listing);
      }
      if !ok {
        hasFailed := true;
      }
    } else {
      if opts.suffix.Some? {
        if !ShouldIncludeSuffix(opts, re, input) {
          return 1, [];
        }
      }
      var run := ProcessFile(opts, env, input, output);
      effects := run.effects;
      if !run.ok {
        hasFailed := true;
      }
    }
    if hasFailed {
      return 1, effects;
    }
    return 0, effects;
  }
}
