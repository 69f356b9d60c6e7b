/** The command-line settings the core reads (`struct options`, main.cpp:130-141). */
module Config {
  import opened Base

  /** `--recursive`, `--dry-run`, `--suffix`, `--exclude` and `--to`
      (which defaults to `UTF-8`). An absent `Option` is an option that was
      not given on the command line. */
  datatype Options = Options(
    recursive: bool,
    dryRun: bool,
    suffix: Option<string>,
    exclude: Option<string>,
    to: string)

  const PatternDelimiter: char := ';'
}
