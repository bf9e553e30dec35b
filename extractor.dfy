/**
 * The extraction logic of src/main.rs: the table of debug-section names,
 * the output-path builder and the per-section scan of `extract_from_file`.
 *
 * The program's side effects are an ordered log of `Effect`s. Whatever the
 * program cannot decide by itself (whether an I/O call fails, what zlib
 * inflation yields, whether overflow checks are compiled in) comes from `Env`.
 */
module DwarfExtractor {
  import opened Wrappers
  import opened Elf
  import opened Paths

  /** The five recognised section names (src/main.rs DEBUG_SECTIONS). */
  const DEBUG_SECTIONS: seq<string> :=
    [".debug_abbrev", ".debug_info", ".debug_loc", ".debug_line", ".debug_str"]

  /** `table.iter().any(|e| e == name)`. */
  function Any(table: seq<string>, name: string): (found: bool)
    ensures found <==> name in table
  {
    |table| > 0 && (table[0] == name || Any(table[1..], name))
  }

  predicate IsDebugSection(name: string) {
    Any(DEBUG_SECTIONS, name)
  }

  /**
   * `build_path`: the output directory joined with the input's file name
   * immediately followed by `suffix`. `None` stands for the panic of the
   * `unwrap` on a path whose last component is not a file name.
   */
  function BuildPath(outputDir: Path, file: Path, suffix: string): (r: Option<Path>)
    ensures r.Some? <==> FileName(file).Some?
    ensures r.Some? ==> r.value == Join(outputDir, FileName(file).value + suffix)
  {
    match FileName(file)
    case None => None
    case Some(fileName) => Some(Join(outputDir, fileName + suffix))
  }

  /** `usize` is 64 bits wide: the host is assumed to be a 64-bit target. */
  const USIZE_LIMIT: int := U64_LIMIT

  /**
   * `start + size` on `usize`: with overflow checks (a debug build) an
   * overflow panics (`None`); without them (a release build) it wraps.
   */
  function UsizeAdd(start: u64, size: u64, overflowChecks: bool): (r: Option<int>)
    ensures r.None? <==> overflowChecks && start + size >= USIZE_LIMIT
    ensures r.Some? ==> 0 <= r.value < USIZE_LIMIT && r.value == (start + size) % USIZE_LIMIT
  {
    if start + size < USIZE_LIMIT then Some(start + size)
    else if overflowChecks then None
    else Some(start + size - USIZE_LIMIT)
  }

  /** `buffer.get(start..end)`: the sub-slice, or `None` when the range is reversed or too long. */
  function SliceGet(buffer: seq<byte>, start: int, end: int): (r: Option<seq<byte>>)
    ensures r.Some? <==> 0 <= start <= end <= |buffer|
    ensures r.Some? ==> |r.value| == end - start
    ensures r.Some? ==> forall k :: 0 <= k < |r.value| ==> r.value[k] == buffer[start + k]
  {
    if 0 <= start <= end <= |buffer| then Some(buffer[start..end]) else None
  }

  /**
   * The name of a section: `Some(name)` for `Some(Ok(name))`, and `None`
   * for both lookups that make the loop `continue`.
   */
  function ResolvedName(view: ElfView, s: SectionHeader): (r: Option<string>)
    ensures r.Some? <==> view.strtab(s.shName).Name?
    ensures r.Some? ==> r.value == view.strtab(s.shName).name
  {
    match view.strtab(s.shName)
    case Name(name) => Some(name)
    case BadName => None
    case NoName => None
  }

  predicate DebugNamed(view: ElfView, s: SectionHeader) {
    var name := ResolvedName(view, s);
    name.Some? && IsDebugSection(name.value)
  }

  /**
   * The context `extract_from_file` builds (src/main.rs lines 57-60): the byte
   * order is taken from the word size, since `Container::is_big` means 64-bit.
   */
  function SourceCtx(c: Container): (ctx: Ctx)
    ensures ctx.container == c
    ensures ctx.le == Big <==> c == Class64
  {
    Ctx(c, if c == Class64 then Big else Little)
  }

  /** The context with the byte order the ELF header declares. */
  function HeaderCtx(c: Container, e: Endian): (ctx: Ctx)
    ensures ctx.container == c && ctx.le == e
  {
    Ctx(c, e)
  }

  /** Observable effects of one run, in program order. */
  datatype Effect =
    | Create(path: Path)                     // File::create: create or truncate
    | Write(path: Path, data: seq<byte>)     // bytes written to the open output file
    | OutOfRange(section: string, file: Path) // "Section .. in .. is out of range" on stderr
    | FileFailed(file: Path, error: FileError) // main's report of an extraction error

  /** The errors that `?` propagates out of `extract_from_file`. */
  datatype FileError =
    | ReadFailed               // fs::read
    | ParseFailed              // goblin::Object::parse
    | NotAnElf                 // an object goblin recognises that is not ELF
    | CreateFailed(path: Path) // File::create
    | WriteFailed(path: Path)  // write_all

  /** The panics the code can raise; a panic ends the whole process. */
  datatype Panic =
    | FileNameMissing // build_path: file_name().unwrap()
    | OffsetOverflow  // sh_offset + sh_size overflows usize (overflow checks on)
    | HeaderPastEnd   // &buf[compression_header_size..] with a shorter section
    | CopyFailed      // io::copy(..).unwrap(): inflation or writing failed

  datatype Exit = Completed | Failed(error: FileError) | Panicked(panic: Panic)

  /** The effects so far, and how the computation ended or whether it goes on (`Completed`). */
  datatype FileRun = FileRun(effects: seq<Effect>, exit: Exit)

  /**
   * The environment: whether overflow checks are compiled in, whether an
   * I/O operation fails given the effects already performed on this file,
   * and zlib inflation (`None` for a corrupt or truncated stream).
   */
  datatype Env = Env(
    overflowChecks: bool,
    ioFails: (seq<Effect>, Effect) -> bool,
    inflate: seq<byte> -> Option<seq<byte>>)

  /** What reading and parsing the input file gives. */
  datatype Loaded = Unreadable | Unparseable | OtherObject | ElfObject(view: ElfView)

  /**
   * One iteration of the section loop, after the effects `log`. `Completed`
   * means the loop goes on with the next header; any other exit ends the file.
   * Each iteration adds at most one `Create`, and only as its first effect.
   */
  function Visit(env: Env, file: Path, outputDir: Path, view: ElfView, s: SectionHeader, log: seq<Effect>): (r: FileRun)
    ensures log <= r.effects && |r.effects| <= |log| + 2
    ensures |r.effects| > |log| ==> r.effects[|log|].Create?
    ensures forall k :: |log| < k < |r.effects| ==> !r.effects[k].Create?
    ensures !DebugNamed(view, s) ==> r == FileRun(log, Completed)
    ensures DebugNamed(view, s) && FileName(file).Some? &&
            !env.ioFails(log, Create(BuildPath(outputDir, file, ResolvedName(view, s).value).value)) ==>
              |r.effects| > |log| && r.effects[|log|] == Create(BuildPath(outputDir, file, ResolvedName(view, s).value).value)
  {
    var name := ResolvedName(view, s);
    if name.None? || !IsDebugSection(name.value) then FileRun(log, Completed)
    else
      var outputPath := BuildPath(outputDir, file, name.value);
      if outputPath.None? then FileRun(log, Panicked(FileNameMissing))
      else
        var path := outputPath.value;
        if env.ioFails(log, Create(path)) then FileRun(log, Failed(CreateFailed(path)))
        else
          var created := log + [Create(path)];
          var sectionEnd := UsizeAdd(s.shOffset, s.shSize, env.overflowChecks);
          if sectionEnd.None? then FileRun(created, Panicked(OffsetOverflow))
          else
            var slice := SliceGet(view.buffer, s.shOffset, sectionEnd.value);
            if slice.None? then FileRun(created + [OutOfRange(name.value, file)], Completed)
            else
              var buf := slice.value;
              if IsCompressed(s) then
                if view.container.None? then FileRun(created, Completed)
                else
                  var headerSize := CompressionHeaderSize(SourceCtx(view.container.value));
                  if headerSize > |buf| then FileRun(created, Panicked(HeaderPastEnd))
                  else
                    var inflated := env.inflate(buf[headerSize..]);
                    if inflated.None? || env.ioFails(created, Write(path, inflated.value)) then
                      FileRun(created, Panicked(CopyFailed))
                    else FileRun(created + [Write(path, inflated.value)], Completed)
              else if env.ioFails(created, Write(path, buf)) then FileRun(created, Failed(WriteFailed(path)))
              else FileRun(created + [Write(path, buf)], Completed)
  }

  /** The section loop over `sections`, in table order, after the effects `log`. */
  function Scan(env: Env, file: Path, outputDir: Path, view: ElfView, sections: seq<SectionHeader>, log: seq<Effect>): (r: FileRun)
    ensures log <= r.effects
    ensures |r.effects| <= |log| + 2 * |sections|
    decreases |sections|
  {
    if sections == [] then FileRun(log, Completed)
    else
      var step := Visit(env, file, outputDir, view, sections[0], log);
      if step.exit.Completed? then Scan(env, file, outputDir, view, sections[1..], step.effects)
      else step
  }

  /** `extract_from_file(file, output_dir)`: its effects and its result. */
  function Extract(file: Path, outputDir: Path, loaded: Loaded, env: Env): (r: FileRun)
    ensures !loaded.ElfObject? ==> r.effects == [] && r.exit.Failed?
    ensures loaded.Unreadable? ==> r.exit == Failed(ReadFailed)
    ensures loaded.Unparseable? ==> r.exit == Failed(ParseFailed)
    ensures loaded.OtherObject? ==> r.exit == Failed(NotAnElf)
  {
    match loaded
    case Unreadable => FileRun([], Failed(ReadFailed))
    case Unparseable => FileRun([], Failed(ParseFailed))
    case OtherObject => FileRun([], Failed(NotAnElf))
    case ElfObject(view) => Scan(env, file, outputDir, view, view.sectionHeaders, [])
  }

  lemma ScanAt(env: Env, file: Path, outputDir: Path, view: ElfView, sections: seq<SectionHeader>, i: nat, log: seq<Effect>)
    requires i < |sections|
    ensures Scan(env, file, outputDir, view, sections[i..], log) ==
      var step := Visit(env, file, outputDir, view, sections[i], log);
      if step.exit.Completed? then Scan(env, file, outputDir, view, sections[i + 1..], step.effects) else step
  {
    assert sections[i..][0] == sections[i];
    assert sections[i..][1..] == sections[i + 1..];
  }

  /**
   * The body of the section loop of `extract_from_file` for one header:
   * `Completed` where the source falls through or does `continue`.
   */
  method VisitSection(env: Env, file: Path, outputDir: Path, view: ElfView, section: SectionHeader, log: seq<Effect>)
    returns (effects: seq<Effect>, exit: Exit)
    ensures FileRun(effects, exit) == Visit(env, file, outputDir, view, section, log)
  {
    effects := log;
    var sectionName: string;
    match view.strtab(section.shName) {
      case Name(n) => sectionName := n;
      case BadName => return effects, Completed;
      case NoName => return effects, Completed;
    }
    if !IsDebugSection(sectionName) {
      return effects, Completed;
    }
    var outputPath := BuildPath(outputDir, file, sectionName);
    if outputPath.None? {
      return effects, Panicked(FileNameMissing);
    }
    var path := outputPath.value;
    if env.ioFails(effects, Create(path)) {
      return effects, Failed(CreateFailed(path));
    }
    effects := effects + [Create(path)];
    var sectionStart: int := section.shOffset;
    var sectionEnd: int := sectionStart + section.shSize;
    if sectionEnd >= USIZE_LIMIT {
      if env.overflowChecks {
        return effects, Panicked(OffsetOverflow);
      }
      sectionEnd := sectionEnd - USIZE_LIMIT;
    }
    if !(sectionStart <= sectionEnd <= |view.buffer|) {
      return effects + [OutOfRange(sectionName, file)], Completed;
    }
    var buf := view.buffer[sectionStart..sectionEnd];
    if IsCompressed(section) {
      if view.container.None? {
        return effects, Completed;
      }
      var ctx := SourceCtx(view.container.value);
      var compressionHeaderSize := CompressionHeaderSize(ctx);
      if compressionHeaderSize > |buf| {
        return effects, Panicked(HeaderPastEnd);
      }
      var inflated := env.inflate(buf[compressionHeaderSize..]);
      if inflated.None? {
        return effects, Panicked(CopyFailed);
      }
      var out := inflated.value;
      if env.ioFails(effects, Write(path, out)) {
        return effects, Panicked(CopyFailed);
      }
      effects := effects + [Write(path, out)];
    } else {
      if env.ioFails(effects, Write(path, buf)) {
        return effects, Failed(WriteFailed(path));
      }
      effects := effects + [Write(path, buf)];
    }
    exit := Completed;
  }

  /**
   * `extract_from_file` as the loop it is: the file's effects are appended
   * to `effects` header by header, and a fatal exit returns at once.
   */
  method ExtractFromFile(file: Path, outputDir: Path, loaded: Loaded, env: Env) returns (effects: seq<Effect>, exit: Exit)
    ensures FileRun(effects, exit) == Extract(file, outputDir, loaded, env)
  {
    effects := [];
    if loaded.Unreadable? {
      return effects, Failed(ReadFailed);
    } else if loaded.Unparseable? {
      return effects, Failed(ParseFailed);
    } else if loaded.OtherObject? {
      return effects, Failed(NotAnElf);
    }
    var view := loaded.view;
    var sections := view.sectionHeaders;
    assert sections[0..] == sections;
    for i := 0 to |sections|
      invariant Scan(env, file, outputDir, view, sections[i..], effects) == Extract(file, outputDir, loaded, env)
    {
      ScanAt(env, file, outputDir, view, sections, i, effects);
      var stepExit: Exit;
      effects, stepExit := VisitSection(env, file, outputDir, view, sections[i], effects);
      if !stepExit.Completed? {
        return effects, stepExit;
      }
    }
    exit := Completed;
  }

  /**
   * The output files after a log of effects: `Create` empties (or makes) a
   * file, `Write` appends to it, diagnostics change nothing.
   */
  function Files(log: seq<Effect>): (fs: map<Path, seq<byte>>)
    decreases |log|
  {
    if log == [] then map[]
    else
      var before := Files(log[..|log| - 1]);
      match log[|log| - 1]
      case Create(p) => before[p := []]
      case Write(p, data) => before[p := (if p in before then before[p] else []) + data]
      case OutOfRange(_, _) => before
      case FileFailed(_, _) => before
  }
}
