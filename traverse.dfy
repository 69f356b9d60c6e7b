/**
 * The collection phase of `process_directory` (main.cpp:470-527): walk the
 * entries of the input directory, drop excluded entries, keep regular files
 * that pass the suffix filter, and pair each with its output path.
 */
module Traverse {
  import opened Paths
  import opened Config
  import opened Rules

  /** One entry produced by the directory iterator: its file names below
      the input directory (what `fs::relative(entry.path(), input_dir)`
      yields), `entry.is_regular_file()` and `fs::is_directory`. */
  datatype Entry = Entry(rel: seq<string>, regular: bool, directory: bool)

  /** A pair `(input_path, output_path)` of `file_pairs`. */
  datatype WorkItem = WorkItem(input: Path, output: Path)

  /** `entry.path()`: the iterator builds it as `input_dir / rel`. */
  function EntryPath(inputDir: Path, e: Entry): Path
  {
    Append(inputDir, Path(false, e.rel))
  }

  /** The three tests an entry must pass, in the order of the loop body. */
  predicate Selected(opts: Options, re: RegexEngine, inputDir: Path, e: Entry)
  {
    var path := EntryPath(inputDir, e);
    && !ShouldExclude(opts, re, path, e.directory)
    && e.regular
    && !(opts.suffix.Some? && !ShouldIncludeSuffix(opts, re, path))
  }

  /** `output_dir / relative_path` in recursive mode (main.cpp:491),
      `output_dir / filename` otherwise (main.cpp:514). */
  function Destination(opts: Options, inputDir: Path, outputDir: Path, e: Entry): Path
  {
    if opts.recursive then Append(outputDir, Path(false, e.rel))
    else Append(outputDir, FilenamePath(EntryPath(inputDir, e)))
  }

  /** The `file_pairs` that the loop builds from `entries`. */
  function Collected(opts: Options, re: RegexEngine, inputDir: Path, outputDir: Path, entries: seq<Entry>): (items: seq<WorkItem>)
    ensures |items| <= |entries|
  {
    if entries == [] then []
    else
      var init := Collected(opts, re, inputDir, outputDir, entries[..|entries| - 1]);
      var e := entries[|entries| - 1];
      if Selected(opts, re, inputDir, e)
      then init + [WorkItem(EntryPath(inputDir, e), Destination(opts, inputDir, outputDir, e))]
      else init
  }

  /** The loop of main.cpp:471-518 over the entries of one iterator. */
  method CollectWorkItems(opts: Options, re: RegexEngine, inputDir: Path, outputDir: Path, entries: seq<Entry>)
    returns (filePairs: seq<WorkItem>, hasProcessedFile: bool)
    ensures filePairs == Collected(opts, re, inputDir, outputDir, entries)
    ensures hasProcessedFile <==> filePairs != []
  {
    filePairs, hasProcessedFile := [], false;
    for k := 0 to |entries|
      invariant filePairs == Collected(opts, re, inputDir, outputDir, entries[..k])
      invariant hasProcessedFile <==> filePairs != []
    {
      assert entries[..k + 1][..k] == entries[..k];
      var entry := entries[k];
      var inputPath := EntryPath(inputDir, entry);
      if ShouldExclude(opts, re, inputPath, entry.directory) {
        continue;
      }
      if entry.regular {
        if opts.suffix.Some? {
          if !ShouldIncludeSuffix(opts, re, inputPath) {
            continue;
          }
        }
        hasProcessedFile := true;
        var outputPath := if opts.recursive then Append(outputDir, Path(false, entry.rel))
                          else Append(outputDir, FilenamePath(inputPath));
        filePairs := filePairs + [WorkItem(inputPath, outputPath)];
      }
    }
    assert entries[..|entries|] == entries;
  }

  // ------------------------------------------------------------ properties

  /** `item` is the pair the loop emits for entry `e`: a regular file that
      is not excluded and passes the suffix filter, whose input lies at the
      entry's place below the input directory and whose output lies at the
      same place below the output directory (recursive mode) or directly in
      it under the same file name (flat mode). */
  predicate PairOf(opts: Options, re: RegexEngine, inputDir: Path, outputDir: Path, e: Entry, item: WorkItem)
  {
    && e.regular
    && !ShouldExclude(opts, re, item.input, e.directory)
    && ShouldIncludeSuffix(opts, re, item.input)
    && item.input == Append(inputDir, Path(false, e.rel))
    && (opts.recursive ==> item.output == Append(outputDir, Path(false, e.rel)))
    && (!opts.recursive ==> item.output == Append(outputDir, FilenamePath(item.input)))
  }

  /** Every collected pair is the pair of one of the entries. */
  lemma {:induction false} CollectedSound(opts: Options, re: RegexEngine, inputDir: Path, outputDir: Path, entries: seq<Entry>)
    ensures forall item | item in Collected(opts, re, inputDir, outputDir, entries) ::
      exists k | 0 <= k < |entries| :: PairOf(opts, re, inputDir, outputDir, entries[k], item)
  {
    if entries != [] {
      var init := entries[..|entries| - 1];
      var last := entries[|entries| - 1];
      CollectedSound(opts, re, inputDir, outputDir, init);
      forall item | item in Collected(opts, re, inputDir, outputDir, entries)
        ensures exists k | 0 <= k < |entries| :: PairOf(opts, re, inputDir, outputDir, entries[k], item)
      {
        if item in Collected(opts, re, inputDir, outputDir, init) {
          var k :| 0 <= k < |init| && PairOf(opts, re, inputDir, outputDir, init[k], item);
          assert entries[k] == init[k];
        } else {
          assert PairOf(opts, re, inputDir, outputDir, last, item);
        }
      }
    }
  }

  /** No qualifying entry is lost: each one's pair is collected. */
  lemma {:induction false} CollectedComplete(opts: Options, re: RegexEngine, inputDir: Path, outputDir: Path, entries: seq<Entry>, k: nat)
    requires k < |entries| && Selected(opts, re, inputDir, entries[k])
    ensures WorkItem(EntryPath(inputDir, entries[k]), Destination(opts, inputDir, outputDir, entries[k]))
      in Collected(opts, re, inputDir, outputDir, entries)
  {
    var init := entries[..|entries| - 1];
    if k < |init| {
      CollectedComplete(opts, re, inputDir, outputDir, init, k);
      assert init[k] == entries[k];
    }
  }

  /** With neither `--exclude` nor `--suffix`, exactly the regular files
      are collected. */
  lemma NoFiltersSelectsRegularFiles(opts: Options, re: RegexEngine, inputDir: Path, e: Entry)
    requires opts.exclude.None? && opts.suffix.None?
    ensures Selected(opts, re, inputDir, e) <==> e.regular
  {
  }

  /** In recursive mode the output tree mirrors the input tree: the part of
      each output path below the output directory equals the part of its
      input path below the input directory. */
  lemma {:induction false} RecursiveOutputMirrorsInput(opts: Options, re: RegexEngine, inputDir: Path, outputDir: Path, entries: seq<Entry>)
    requires opts.recursive
    ensures forall item | item in Collected(opts, re, inputDir, outputDir, entries) ::
      && inputDir.names <= item.input.names
      && outputDir.names <= item.output.names
      && item.output.names[|outputDir.names|..] == item.input.names[|inputDir.names|..]
      && item.input.rooted == inputDir.rooted && item.output.rooted == outputDir.rooted
  {
    CollectedSound(opts, re, inputDir, outputDir, entries);
  }
}
