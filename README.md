# chconv file selection and bookkeeping, in Dafny

`chconv` converts text files to a target encoding. Given one file or a
directory, it picks the files to convert with two `;`-separated pattern
options, `--exclude` and `--suffix`. It detects each file's encoding, runs
it through `iconv`, and exits 0 or 1.

This project models the sequential core of `main.cpp`:

- `split_string` (`split.dfy`): a method whose loop matches the
  `std::getline` loop. It is proved equal to a specification: the
  non-empty maximal delimiter-free segments, in order. The segments are
  proved to be the inverse of joining with the delimiter.
- `should_exclude` and `should_include_suffix` (`rules.dfy`): recursive
  functions over the pattern list. `std::regex` is a parameter
  (`RegexEngine`): one function says whether a pattern compiles, the other
  is `regex_search`. The string fallback used for patterns that do not
  compile is modelled exactly.
- Paths (`paths.dfy`): POSIX `std::filesystem::path` values made of an
  optional root and a list of names. They provide `string()`, `filename()`,
  `extension()` (C++17 [fs.path.decompose]: `.`, `..` and names like
  `.profile` have no extension), element iteration, `/` and
  `parent_path()`.
- The collection loop of `process_directory` (`traverse.dfy`): a method over
  an abstract list of directory entries, proved equal to a filter-map
  specification. Lemmas give soundness, completeness and the output path
  shape.
- `detect_encoding`, `convert_encoding` and `process_file` (`convert.dfy`).
  The detector, `iconv` and the file system are oracles in `Env`. The
  buffer arithmetic (`size << 1`, `out_left`, `size - out_left` bytes
  written) is kept. File-system effects are returned as values.
- Running the tasks, the verdict of `process_directory`, and `main`'s exit
  code (`batch.dfy`).

Four behaviours of `main.cpp` worth stating:

- In recursive mode, an excluded directory is skipped, but the recursive
  iterator still descends into it. Its files are filtered one by one. Nothing
  is pruned.
- An empty file is not skipped. It goes to the detector, and an empty label
  is a failure.
- A file already in the target encoding still goes through `iconv`. There is
  no verbatim copy.
- Matching uses `regex_search`, which is unanchored.

## Model

| member | source | states |
|---|---|---|
| `Split.SplitString` | main.cpp:189-202 | the loop returns exactly `Tokens`, the non-empty maximal `;`-free segments of the input, in order |
| `Split.Tokens` | main.cpp:195-199 | every token is non-empty and free of the delimiter |
| `Split.SegmentsFree` | main.cpp:195 | no segment read by `getline` contains the delimiter |
| `Split.JoinSegments` | main.cpp:195 | joining the segments with the delimiter gives back the input, so nothing is dropped or reordered |
| `Split.SegmentsJoin` | main.cpp:195 | splitting delimiter-free parts joined with the delimiter gives back exactly those parts, so the segments are maximal |
| `Split.TokensOfJoin` | main.cpp:189-202 | round trip: non-empty, delimiter-free patterns joined with `;` split back into the same list |
| `Split.NonEmptyMembers` | main.cpp:196-198 | a string is a token iff it is a non-empty segment |
| `Paths.ExtensionOf` | main.cpp:213 | the extension is empty iff the name is `.` or `..`, has no period, or has its only period first; otherwise it starts with its only period and is a proper suffix of the name |
| `Paths.ParentPath` | main.cpp:449 | the parent path keeps the root, and appending the file name to it gives back the path |
| `Rules.AnyPatternExcludes` | main.cpp:218-261 | the pattern loop returns true iff some pattern in the list excludes the path |
| `Rules.ShouldExclude` | main.cpp:204-262 | with no `--exclude`, nothing is excluded; otherwise a path is excluded iff some split pattern matches it |
| `Rules.AnyPatternIncludes` | main.cpp:281-301 | the suffix loop returns true iff some pattern matches the extension |
| `Rules.ShouldIncludeSuffix` | main.cpp:264-302 | with no `--suffix`, everything is included; with one, an empty extension is never included; otherwise inclusion iff some split pattern matches the extension |
| `Rules.ExclusionIgnoresOrder` | main.cpp:218-261 | reordering the exclude patterns never changes the result |
| `Rules.InclusionIgnoresOrder` | main.cpp:281-301 | reordering the suffix patterns never changes the result |
| `Rules.LiteralExclusionIsSubstring` | main.cpp:242-257 | for a pattern that does not compile, exclusion holds iff the pattern is a substring of the path string |
| `Rules.DirectoryNameExcludesDescendants` | main.cpp:236-256 | a pattern found in (regex) or equal to (fallback) a directory's name excludes every path below that directory, at any depth |
| `Rules.LiteralSuffixMatchesNameEnd` | main.cpp:291-297 | for a non-compiling suffix pattern without a period, a file is kept iff its name is a non-empty stem, a period and the pattern |
| `Traverse.Collected` | main.cpp:470-518 | never more pairs than entries |
| `Traverse.CollectWorkItems` | main.cpp:466-518 | the loop builds exactly the specified pairs, and `has_processed_file` holds iff at least one pair was collected |
| `Traverse.CollectedSound` | main.cpp:474-516 | every collected pair comes from a regular, non-excluded entry that passes the suffix filter; its input is `input_dir / relative_path`, and its output is `output_dir / relative_path` (recursive) or `output_dir / filename` (flat) |
| `Traverse.CollectedComplete` | main.cpp:474-516 | every entry that passes the filters has its pair collected |
| `Traverse.NoFiltersSelectsRegularFiles` | main.cpp:474-492 | with neither option set, exactly the regular files are selected |
| `Traverse.RecursiveOutputMirrorsInput` | main.cpp:479-492 | in recursive mode, for every pair, the output path below the output directory equals the input path below the input directory |
| `Convert.DetectEncoding` | main.cpp:351-378 | detection succeeds iff the file can be read and the detector gives a non-empty label, which is then returned |
| `Convert.DoubleSize` | main.cpp:408 | the doubled size stays within `size_t` |
| `Convert.DoubleSizeOfVector` | main.cpp:408 | for a vector-sized input the shift never wraps, so the output buffer is exactly twice the input |
| `Convert.Conversion` | main.cpp:380-433 | the conversion succeeds iff the input is read, `iconv_open` succeeds, the transcoder accepts the input, its output fits in twice the input's length and the output file opens; on success it writes the transcoder's output unchanged |
| `Convert.ExpansionBeyondDoubleFails` | main.cpp:414-421 | output that needs more than twice the input's length makes the conversion fail |
| `Convert.ConvertEncoding` | main.cpp:380-433 | the buffer bookkeeping (`size << 1`, `out_left`, `size - out_left` bytes written) writes exactly the specified conversion, at most 2x the input, and nothing on failure |
| `Convert.ProcessFile` | main.cpp:435-462 | failed detection is a failure with no effect; a dry run has no effect and succeeds iff detection does; a real run succeeds iff detection, the parent directories and the conversion succeed; a failure never writes a file; a real success creates the parent directories, then writes the transcoder's output of the input from the detected encoding to the output file |
| `Batch.NoWorkerWhenConcurrencyKnown` | main.cpp:38 | the worker count as written is 0 whenever the hardware thread count is known |
| `Batch.WorkerCount` | main.cpp:38 | the intended worker count is at least 1, and equals the hardware thread count when it is known |
| `Batch.RunTasks` | main.cpp:41-84 | with at least one worker, draining the queue sets `has_error` iff some task fails, and performs the tasks' effects in queue order; with no worker, no task runs and `has_error` stays false |
| `Batch.VerdictIgnoresOrder` | main.cpp:63-65 | the verdict does not depend on the order in which tasks run |
| `Batch.DryRunHasNoEffects` | main.cpp:442-447 | a dry run over any list of items touches no file |
| `Batch.WritesOnlyOutputs` | main.cpp:425-431 | every file written is some item's output, with at most twice that item's input length |
| `Batch.DirectoryRun` | main.cpp:464-543 | a failed listing fails with no effects; otherwise the directory succeeds iff every collected item succeeds |
| `Batch.DirectoryDryRunHasNoEffects` | main.cpp:442-447 | a dry run over a directory touches no file |
| `Batch.ProcessDirectory` | main.cpp:464-543 | with at least one worker the method matches `DirectoryRun`; with none, a listed directory returns true with no effects; an empty selection returns true with no effects |
| `Batch.ProcessDirectoryAsWritten` | main.cpp:38 | with the pool sized as written, any listed directory on a machine that reports its thread count returns true with no effects |
| `Batch.AsWrittenDropsConversion` | main.cpp:520-539 | for a directory holding one convertible file, the intended run succeeds by creating the output directory and writing the converted file |
| `Batch.RunMain` | main.cpp:545-591 | exit code 1 iff the input is missing, the directory fails, a single file fails the suffix filter, or the single file fails; 0 otherwise; the effects are those of the directory run or of the single file's run, and none on a missing input, a rejected file or a dry run |

## Findings

| source | as written | input that shows it | evidently intended | confidence | as-written member | corrected member |
|---|---|---|---|---|---|---|
| main.cpp:38 | `hardware_concurrency() ? 0 : 2` workers | any machine where `hardware_concurrency()` returns 8 (or any non-zero value): the pool has 0 workers, no queued conversion runs, and `process_directory` reports success with nothing converted | `hardware_concurrency() ? hardware_concurrency() : 2` | high; not executed | `Batch.ProcessDirectoryAsWritten` (reports success with no effects), with `Batch.AsWrittenDropsConversion` (the intended run writes a file) and `Batch.NoWorkerWhenConcurrencyKnown` | `Batch.WorkerCount`, used by `Batch.RunMain` |

## Left out

- Threads, the mutex-guarded queue and the condition variable of `ParallelProcessor` (main.cpp:29-105). The model drains the queue in order with the corrected worker count. Because `has_error` only ever goes from false to true, any interleaving gives the same verdict (`Batch.VerdictIgnoresOrder`).
- `process_directory` reads `has_failed()` at main.cpp:538, before the pool's destructor joins the workers. That is a race, so a verdict can be read before the tasks finish. The model reads the verdict after the drain.
- Batch.RunTasks: the effects are listed in queue order. Concurrent workers may interleave them in another order.
- uchardet and the shared `guard_t` handle (main.cpp:106-117, 366-373) are a foreign library. `Env.detect` stands in for them and returns a label, or `""` when the encoding is not recognised.
- `iconv_open`, `iconv` and all `ifstream`/`ofstream` I/O are foreign calls. They are the oracles `Env.opens`, `Env.iconv`, `Env.read` and `Env.creates`. A partially converted prefix on E2BIG is not modelled; the call fails either way.
- `std::regex` is not modelled as an engine. It is the parameter `RegexEngine`.
- Rules.ShouldExclude: `RegexEngine.search` is total. A `regex_error` thrown by `regex_search` after a successful compile (main.cpp:222-238) would also reach the literal fallback at main.cpp:242; the model does not capture that case.
- Rules.ShouldIncludeSuffix: likewise, a `regex_error` thrown by `regex_search` after a successful compile (main.cpp:283-290) would reach the literal fallback at main.cpp:293; the model does not capture that case.
- Directory iteration, `fs::relative`, `fs::exists`, `fs::is_directory`, `fs::absolute` and `fs::create_directories` are file-system I/O. They become entry lists, booleans and the `Env.makeDirectories` oracle. Entries carry their names relative to the input directory. Symbolic-link resolution in `fs::relative` and exceptions thrown by these calls mid-iteration (beyond a whole listing failing) are not modelled.
- Paths are POSIX paths in normal form. Windows root names, trailing separators, and `.`/`..` elements inside a path are not modelled.
- `ThreadSafeLogger`, `log` and `render_string` (main.cpp:120-128, 304-349) are logging. `options::init` (main.cpp:143-183) is command-line parsing. The model starts from parsed `Config.Options` and leaves `--verbose` out.
- magic_static.py is a build script with no logic of the core.
