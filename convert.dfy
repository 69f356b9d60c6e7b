/**
 * One file: `detect_encoding` (main.cpp:351-378), `convert_encoding`
 * (main.cpp:380-433) and `process_file` (main.cpp:435-462). The charset
 * detector, the converter and the file system are parameters.
 */
module Convert {
  import opened Base
  import opened Paths
  import opened Config

  /** 2^64: `size_t` arithmetic wraps modulo this. */
  const SizeLimit: int := 0x1_0000_0000_0000_0000

  /** `std::vector<char>::max_size()` (PTRDIFF_MAX): no buffer is longer. */
  const MaxVectorSize: int := 0x7FFF_FFFF_FFFF_FFFF

  /** The content of a file once it sits in a `std::vector<char>`. */
  type Buffer = b: Bytes | |b| <= MaxVectorSize

  /** The collaborators that are not part of this model.
      - `read`: opening the file and reading it whole; `None` when either fails.
      - `detect`: the label uchardet gives the bytes, `""` when it has none.
      - `opens(to, from)`: `iconv_open(to, from)` does not return -1.
      - `iconv(from, to, bytes)`: the complete output of the conversion given
        unlimited room, `None` when `iconv` rejects the input.
      - `makeDirectories(dir)`: `fs::create_directories(dir)` does not throw.
      - `creates(file)`: an `std::ofstream` on the file opens. */
  datatype Env = Env(
    read: Path -> Option<Buffer>,
    detect: Buffer -> string,
    opens: (string, string) -> bool,
    iconv: (string, string, Buffer) -> Option<Bytes>,
    makeDirectories: Path -> bool,
    creates: Path -> bool)

  /** What a conversion does to the file system. */
  datatype Effect = CreateDirectories(dir: Path) | WriteFile(file: Path, bytes: Bytes)

  /** The verdict of one call and the file-system effects it performed. */
  datatype Run = Run(ok: bool, effects: seq<Effect>)

  /** `detect_encoding`: a thrown `runtime_error` is an `Err`. */
  function DetectEncoding(env: Env, file: Path): (r: Result<string>)
    ensures r.Ok? <==> env.read(file).Some? && env.detect(env.read(file).value) != []
    ensures r.Ok? ==> r.value == env.detect(env.read(file).value) && r.value != []
  {
    match env.read(file)
    case None => Err("cannot open file")
    case Some(buffer) =>
      var encoding := env.detect(buffer);
      if encoding == [] then Err("unrecognized encoding of file") else Ok(encoding)
  }

  /** `input_buffer.size() << 1` on a `size_t`. */
  function DoubleSize(n: nat): (r: nat)
    requires n < SizeLimit
    ensures r < SizeLimit
  {
    (n * 2) % SizeLimit
  }

  /** A vector is never long enough for the doubling to wrap around. */
  lemma DoubleSizeOfVector(n: nat)
    requires n <= MaxVectorSize
    ensures DoubleSize(n) == 2 * n
  {
  }

  /** What `convert_encoding` writes, or `None` when it returns false. It
      succeeds exactly when the input is read, `iconv_open` succeeds, the
      converter accepts the input, its output fits in twice the input's
      length and the output file opens. */
  function Conversion(env: Env, inputFile: Path, fromEncoding: string, outputFile: Path, toEncoding: string): (r: Option<Bytes>)
    ensures r.Some? <==>
      && env.read(inputFile).Some?
      && env.opens(toEncoding, fromEncoding)
      && env.iconv(fromEncoding, toEncoding, env.read(inputFile).value).Some?
      && |env.iconv(fromEncoding, toEncoding, env.read(inputFile).value).value| <= 2 * |env.read(inputFile).value|
      && env.creates(outputFile)
    ensures r.Some? ==> env.read(inputFile).Some?
    ensures r.Some? ==> |r.value| <= 2 * |env.read(inputFile).value|
    ensures r.Some? ==> env.iconv(fromEncoding, toEncoding, env.read(inputFile).value) == r
    ensures r.Some? ==> env.opens(toEncoding, fromEncoding) && env.creates(outputFile)
  {
    match env.read(inputFile)
    case None => None
    case Some(input) =>
      if !env.opens(toEncoding, fromEncoding) then None
      else
        DoubleSizeOfVector(|input|);
        match env.iconv(fromEncoding, toEncoding, input)
        case None => None
        case Some(output) =>
          if |output| > DoubleSize(|input|) || !env.creates(outputFile) then None
          else Some(output)
  }

  /** Output that needs more than twice the input's length never reaches
      the file: `iconv` stops with E2BIG and the call fails. */
  lemma ExpansionBeyondDoubleFails(env: Env, inputFile: Path, fromEncoding: string, outputFile: Path, toEncoding: string)
    requires env.read(inputFile).Some?
    requires var out := env.iconv(fromEncoding, toEncoding, env.read(inputFile).value);
      out.Some? && |out.value| > 2 * |env.read(inputFile).value|
    ensures Conversion(env, inputFile, fromEncoding, outputFile, toEncoding).None?
  {
  }

  /** `convert_encoding` with its buffer bookkeeping: the output buffer holds
      twice the input, `iconv` fills it from the front and lowers
      `out_left`, and `output_buffer_size - out_left` bytes are written. */
  method ConvertEncoding(env: Env, inputFile: Path, fromEncoding: string, outputFile: Path, toEncoding: string)
    returns (ok: bool, written: Bytes)
    ensures ok <==> Conversion(env, inputFile, fromEncoding, outputFile, toEncoding).Some?
    ensures ok ==> written == Conversion(env, inputFile, fromEncoding, outputFile, toEncoding).value
    ensures ok ==> |written| <= 2 * |env.read(inputFile).value|
    ensures !ok ==> written == []
  {
    ok, written := false, [];
    var content := env.read(inputFile);
    if content.None? {
      return;
    }
    var inputBuffer := content.value;
    if !env.opens(toEncoding, fromEncoding) {
      return;
    }
    var outputBufferSize := DoubleSize(|inputBuffer|);
    var outputBuffer := new byte[outputBufferSize];
    var outLeft := outputBufferSize;
    var converted := env.iconv(fromEncoding, toEncoding, inputBuffer);
    if converted.None? || |converted.value| > outLeft {
      return;
    }
    var produced := converted.value;
    forall i | 0 <= i < |produced| {
      outputBuffer[i] := produced[i];
    }
    outLeft := outLeft - |produced|;
    if !env.creates(outputFile) {
      return;
    }
    written := outputBuffer[..outputBufferSize - outLeft];
    ok := true;
  }

  /** `process_file`: detection, then either the dry-run report or the
      directory creation and the conversion. Any exception makes it false. */
  function ProcessFile(opts: Options, env: Env, input: Path, output: Path): (run: Run)
    ensures DetectEncoding(env, input).Err? ==> run == Run(false, [])
    ensures opts.dryRun ==> run.effects == [] && (run.ok <==> DetectEncoding(env, input).Ok?)
    ensures !run.ok ==> forall k | 0 <= k < |run.effects| :: !run.effects[k].WriteFile?
    ensures run.ok && !opts.dryRun ==>
      && env.read(input).Some?
      && |run.effects| == 2
      && run.effects[0] == CreateDirectories(ParentPath(output))
      && run.effects[1].WriteFile? && run.effects[1].file == output
      && |run.effects[1].bytes| <= 2 * |env.read(input).value|
      && DetectEncoding(env, input).Ok?
      && Some(run.effects[1].bytes) == env.iconv(DetectEncoding(env, input).value, opts.to, env.read(input).value)
    ensures !opts.dryRun ==>
      (run.ok <==>
        && DetectEncoding(env, input).Ok?
        && env.makeDirectories(ParentPath(output))
        && Conversion(env, input, DetectEncoding(env, input).value, output, opts.to).Some?)
  {
    match DetectEncoding(env, input)
    case Err(_) => Run(false, [])
    case Ok(encoding) =>
      if opts.dryRun then Run(true, [])
      else if !env.makeDirectories(ParentPath(output)) then Run(false, [])
      else
        var made := [CreateDirectories(ParentPath(output))];
        match Conversion(env, input, encoding, output, opts.to)
        case None => Run(false, made)
        case Some(bytes) => Run(true, made + [WriteFile(output, bytes)])
  }
}
