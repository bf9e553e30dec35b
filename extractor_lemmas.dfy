/**
 * Properties of the extraction model: classification, output naming,
 * what each kind of section leaves behind, and the order of the scan.
 */
module ExtractorLemmas {
  import opened Wrappers
  import opened Elf
  import opened Paths
  import opened DwarfExtractor

  // ---------------------------------------------------------------- naming

  /** Classification is exact equality with one of five fixed names. */
  lemma DebugSectionTable(name: string)
    ensures IsDebugSection(name) <==>
      name == ".debug_abbrev" || name == ".debug_info" || name == ".debug_loc" ||
      name == ".debug_line" || name == ".debug_str"
  {
  }

  /** The section name can be read back from an output path: it is what follows the file name. */
  lemma BuildPathSplits(outputDir: Path, file: Path, suffix: string)
    requires FileName(file).Some?
    ensures var p := BuildPath(outputDir, file, suffix).value;
      var base := FileName(file).value;
      |p| == |outputDir| + 1 && p[..|outputDir|] == outputDir && p[|outputDir|].Normal? &&
      |base| <= |p[|outputDir|].name| &&
      p[|outputDir|].name[..|base|] == base && p[|outputDir|].name[|base|..] == suffix
  {
  }

  /** Within one input file, different section names give different output paths. */
  lemma BuildPathSeparatesSections(outputDir: Path, file: Path, suffix1: string, suffix2: string)
    requires FileName(file).Some?
    ensures BuildPath(outputDir, file, suffix1) == BuildPath(outputDir, file, suffix2) <==> suffix1 == suffix2
  {
    if BuildPath(outputDir, file, suffix1) == BuildPath(outputDir, file, suffix2) {
      BuildPathSplits(outputDir, file, suffix1);
      BuildPathSplits(outputDir, file, suffix2);
    }
  }

  /**
   * Two input files land on the same output path for a section exactly when
   * their file names agree, whatever directories they come from.
   */
  lemma BuildPathCollides(outputDir: Path, file1: Path, file2: Path, suffix: string)
    ensures BuildPath(outputDir, file1, suffix) == BuildPath(outputDir, file2, suffix) <==>
            FileName(file1) == FileName(file2)
  {
    var r1, r2 := BuildPath(outputDir, file1, suffix), BuildPath(outputDir, file2, suffix);
    if r1 == r2 && r1.Some? {
      var n1, n2 := FileName(file1).value, FileName(file2).value;
      assert r1.value[|outputDir|].name == n1 + suffix;
      assert r2.value[|outputDir|].name == n2 + suffix;
      assert n1 == (n1 + suffix)[..|n1|];
      assert |n1| == |n2|;
      assert n2 == (n2 + suffix)[..|n2|];
    }
  }

  // ------------------------------------------------------- single sections

  /** The output path of a debug section of `file`. */
  function OutputPath(file: Path, outputDir: Path, view: ElfView, s: SectionHeader): Path
    requires DebugNamed(view, s) && FileName(file).Some?
  {
    BuildPath(outputDir, file, ResolvedName(view, s).value).value
  }

  /** A header whose name cannot be looked up is skipped without any effect. */
  lemma UnresolvedNameIsSkipped(env: Env, file: Path, outputDir: Path, view: ElfView, s: SectionHeader, log: seq<Effect>)
    requires view.strtab(s.shName).NoName? || view.strtab(s.shName).BadName?
    ensures Visit(env, file, outputDir, view, s, log) == FileRun(log, Completed)
  {
  }

  /** A well-named section that is not a debug section is skipped without any effect. */
  lemma OtherSectionIsSkipped(env: Env, file: Path, outputDir: Path, view: ElfView, s: SectionHeader, log: seq<Effect>)
    requires view.strtab(s.shName).Name? && !IsDebugSection(view.strtab(s.shName).name)
    ensures Visit(env, file, outputDir, view, s, log) == FileRun(log, Completed)
  {
  }

  /**
   * For a debug section inside the buffer and without the compressed flag,
   * the output file is created and then receives exactly the section's bytes.
   * (A `Vec<u8>` is always shorter than 2^64 bytes.)
   */
  lemma PlainSectionCopied(env: Env, file: Path, outputDir: Path, view: ElfView, s: SectionHeader, log: seq<Effect>)
    requires DebugNamed(view, s) && FileName(file).Some? && !IsCompressed(s)
    requires s.shOffset + s.shSize <= |view.buffer| < USIZE_LIMIT
    requires var p := OutputPath(file, outputDir, view, s);
      !env.ioFails(log, Create(p)) &&
      !env.ioFails(log + [Create(p)], Write(p, view.buffer[s.shOffset..s.shOffset + s.shSize]))
    ensures var p := OutputPath(file, outputDir, view, s);
      var data := view.buffer[s.shOffset..s.shOffset + s.shSize];
      var r := Visit(env, file, outputDir, view, s, log);
      r == FileRun(log + [Create(p), Write(p, data)], Completed) && Files(r.effects)[p] == data
  {
    var p := OutputPath(file, outputDir, view, s);
    var data := view.buffer[s.shOffset..s.shOffset + s.shSize];
    FilesAfterCreateWrite(log, p, data);
  }

  /** A plain debug section whose bytes cannot be written ends the file with an error. */
  lemma PlainSectionWriteFails(env: Env, file: Path, outputDir: Path, view: ElfView, s: SectionHeader, log: seq<Effect>)
    requires DebugNamed(view, s) && FileName(file).Some? && !IsCompressed(s)
    requires s.shOffset + s.shSize <= |view.buffer| < USIZE_LIMIT
    requires var p := OutputPath(file, outputDir, view, s);
      !env.ioFails(log, Create(p)) &&
      env.ioFails(log + [Create(p)], Write(p, view.buffer[s.shOffset..s.shOffset + s.shSize]))
    ensures var p := OutputPath(file, outputDir, view, s);
      Visit(env, file, outputDir, view, s, log) == FileRun(log + [Create(p)], Failed(WriteFailed(p)))
  {
  }

  /** A debug section whose output file cannot be created ends the file before anything else. */
  lemma CreateFailureEndsFile(env: Env, file: Path, outputDir: Path, view: ElfView, s: SectionHeader, log: seq<Effect>)
    requires DebugNamed(view, s) && FileName(file).Some?
    requires env.ioFails(log, Create(OutputPath(file, outputDir, view, s)))
    ensures Visit(env, file, outputDir, view, s, log) ==
      FileRun(log, Failed(CreateFailed(OutputPath(file, outputDir, view, s))))
  {
  }

  /** The compression header's size for a known word size. */
  function HeaderSize(view: ElfView): nat
    requires view.container.Some?
  {
    CompressionHeaderSize(SourceCtx(view.container.value))
  }

  /**
   * For a compressed debug section inside the buffer, the decoder is handed
   * the section's bytes after the compression header, and what it yields is
   * exactly what the output file receives.
   */
  lemma CompressedSectionInflated(env: Env, file: Path, outputDir: Path, view: ElfView, s: SectionHeader, log: seq<Effect>, out: seq<byte>)
    requires DebugNamed(view, s) && FileName(file).Some? && IsCompressed(s)
    requires s.shOffset + s.shSize <= |view.buffer| < USIZE_LIMIT
    requires view.container.Some? && HeaderSize(view) <= s.shSize
    requires env.inflate(view.buffer[s.shOffset + HeaderSize(view)..s.shOffset + s.shSize]) == Some(out)
    requires var p := OutputPath(file, outputDir, view, s);
      !env.ioFails(log, Create(p)) && !env.ioFails(log + [Create(p)], Write(p, out))
    ensures var p := OutputPath(file, outputDir, view, s);
      var r := Visit(env, file, outputDir, view, s, log);
      r == FileRun(log + [Create(p), Write(p, out)], Completed) && Files(r.effects)[p] == out
  {
    var start, end, h := s.shOffset, s.shOffset + s.shSize, HeaderSize(view);
    assert view.buffer[start..end][h..] == view.buffer[start + h..end];
    FilesAfterCreateWrite(log, OutputPath(file, outputDir, view, s), out);
  }

  /**
   * The bytes of the compression header never reach the output: changing
   * them leaves every effect of a compressed section unchanged.
   */
  lemma CompressionHeaderNotCopied(env: Env, file: Path, outputDir: Path, view: ElfView, s: SectionHeader, log: seq<Effect>, other: seq<byte>)
    requires IsCompressed(s) && view.container.Some?
    requires s.shOffset + s.shSize <= |view.buffer| < USIZE_LIMIT
    requires HeaderSize(view) <= s.shSize && |other| == |view.buffer|
    requires forall k :: 0 <= k < |other| && !(s.shOffset <= k < s.shOffset + HeaderSize(view)) ==> other[k] == view.buffer[k]
    ensures Visit(env, file, outputDir, view, s, log) == Visit(env, file, outputDir, view.(buffer := other), s, log)
  {
    var start, end, h := s.shOffset, s.shOffset + s.shSize, HeaderSize(view);
    var view' := view.(buffer := other);
    assert view.buffer[start..end][h..] == view'.buffer[start..end][h..] by {
      assert view.buffer[start..end][h..] == view.buffer[start + h..end];
      assert view'.buffer[start..end][h..] == view'.buffer[start + h..end];
    }
  }

  /** A compressed section shorter than its compression header panics after its file was created. */
  lemma ShortCompressedSectionPanics(env: Env, file: Path, outputDir: Path, view: ElfView, s: SectionHeader, log: seq<Effect>)
    requires DebugNamed(view, s) && FileName(file).Some? && IsCompressed(s)
    requires s.shOffset + s.shSize <= |view.buffer| < USIZE_LIMIT
    requires view.container.Some? && HeaderSize(view) > s.shSize
    requires !env.ioFails(log, Create(OutputPath(file, outputDir, view, s)))
    ensures Visit(env, file, outputDir, view, s, log) ==
      FileRun(log + [Create(OutputPath(file, outputDir, view, s))], Panicked(HeaderPastEnd))
  {
  }

  /** A compressed section the decoder rejects panics after its file was created. */
  lemma CorruptStreamPanics(env: Env, file: Path, outputDir: Path, view: ElfView, s: SectionHeader, log: seq<Effect>)
    requires DebugNamed(view, s) && FileName(file).Some? && IsCompressed(s)
    requires s.shOffset + s.shSize <= |view.buffer| < USIZE_LIMIT
    requires view.container.Some? && HeaderSize(view) <= s.shSize
    requires env.inflate(view.buffer[s.shOffset + HeaderSize(view)..s.shOffset + s.shSize]).None?
    requires !env.ioFails(log, Create(OutputPath(file, outputDir, view, s)))
    ensures Visit(env, file, outputDir, view, s, log) ==
      FileRun(log + [Create(OutputPath(file, outputDir, view, s))], Panicked(CopyFailed))
  {
    var start, end, h := s.shOffset, s.shOffset + s.shSize, HeaderSize(view);
    assert view.buffer[start..end][h..] == view.buffer[start + h..end];
  }

  /**
   * A compressed debug section of an object whose word size is unknown is
   * skipped, but only after its output file was created empty.
   */
  lemma UnknownContainerLeavesEmptyFile(env: Env, file: Path, outputDir: Path, view: ElfView, s: SectionHeader, log: seq<Effect>)
    requires DebugNamed(view, s) && FileName(file).Some? && IsCompressed(s) && view.container.None?
    requires s.shOffset + s.shSize <= |view.buffer| < USIZE_LIMIT
    requires !env.ioFails(log, Create(OutputPath(file, outputDir, view, s)))
    ensures var p := OutputPath(file, outputDir, view, s);
      var r := Visit(env, file, outputDir, view, s, log);
      r == FileRun(log + [Create(p)], Completed) && p in Files(r.effects) && Files(r.effects)[p] == []
  {
  }

  /** Does the end of the section's range overflow `usize`? */
  predicate Overflows(s: SectionHeader) {
    s.shOffset + s.shSize >= USIZE_LIMIT
  }

  /** In a build without overflow checks, a wrapped end lies before the start. */
  lemma WrappedEndPrecedesStart(s: SectionHeader, buffer: seq<byte>)
    requires Overflows(s)
    ensures SliceGet(buffer, s.shOffset, UsizeAdd(s.shOffset, s.shSize, false).value).None?
  {
    assert UsizeAdd(s.shOffset, s.shSize, false).value == s.shOffset + s.shSize - USIZE_LIMIT;
  }

  /**
   * A debug section extending past the buffer (or, without overflow checks,
   * past the end of the address space) is reported once, its output file
   * stays empty, and the scan goes on.
   */
  lemma OutOfRangeSectionReported(env: Env, file: Path, outputDir: Path, view: ElfView, s: SectionHeader, log: seq<Effect>)
    requires DebugNamed(view, s) && FileName(file).Some?
    requires if Overflows(s) then !env.overflowChecks else s.shOffset + s.shSize > |view.buffer|
    requires !env.ioFails(log, Create(OutputPath(file, outputDir, view, s)))
    ensures var p := OutputPath(file, outputDir, view, s);
      var r := Visit(env, file, outputDir, view, s, log);
      r == FileRun(log + [Create(p), OutOfRange(ResolvedName(view, s).value, file)], Completed) &&
      p in Files(r.effects) && Files(r.effects)[p] == []
  {
    if Overflows(s) {
      WrappedEndPrecedesStart(s, view.buffer);
    }
    var p := OutputPath(file, outputDir, view, s);
    var created := log + [Create(p)];
    var r := created + [OutOfRange(ResolvedName(view, s).value, file)];
    assert r[..|r| - 1] == created;
    assert created[..|created| - 1] == log;
  }

  /** With overflow checks, an overflowing range panics after the output file was created. */
  lemma OverflowPanicsWithChecks(env: Env, file: Path, outputDir: Path, view: ElfView, s: SectionHeader, log: seq<Effect>)
    requires DebugNamed(view, s) && FileName(file).Some? && Overflows(s) && env.overflowChecks
    requires !env.ioFails(log, Create(OutputPath(file, outputDir, view, s)))
    ensures Visit(env, file, outputDir, view, s, log) ==
      FileRun(log + [Create(OutputPath(file, outputDir, view, s))], Panicked(OffsetOverflow))
  {
  }

  // ------------------------------------------------------------ the scan

  /** The headers of `sections` that carry a debug-section name, in order. */
  function DebugSectionsOf(view: ElfView, sections: seq<SectionHeader>): (r: seq<SectionHeader>)
    ensures |r| <= |sections|
    ensures forall h :: h in r <==> h in sections && DebugNamed(view, h)
  {
    if sections == [] then []
    else if DebugNamed(view, sections[0]) then [sections[0]] + DebugSectionsOf(view, sections[1..])
    else DebugSectionsOf(view, sections[1..])
  }

  /** The kept headers keep their table order: filtering distributes over concatenation. */
  lemma {:induction false} DebugSectionsOfAppend(view: ElfView, a: seq<SectionHeader>, b: seq<SectionHeader>)
    ensures DebugSectionsOf(view, a + b) == DebugSectionsOf(view, a) + DebugSectionsOf(view, b)
    decreases |a|
  {
    if a == [] {
      assert a + b == b;
    } else {
      assert (a + b)[0] == a[0] && (a + b)[1..] == a[1..] + b;
      DebugSectionsOfAppend(view, a[1..], b);
    }
  }

  /** Removing every header that is not a debug section changes nothing the scan does. */
  lemma {:induction false} OtherSectionsAreInert(env: Env, file: Path, outputDir: Path, view: ElfView, sections: seq<SectionHeader>, log: seq<Effect>)
    ensures Scan(env, file, outputDir, view, sections, log) ==
            Scan(env, file, outputDir, view, DebugSectionsOf(view, sections), log)
    decreases |sections|
  {
    if sections != [] {
      var step := Visit(env, file, outputDir, view, sections[0], log);
      if DebugNamed(view, sections[0]) {
        var kept := DebugSectionsOf(view, sections);
        assert kept[0] == sections[0] && kept[1..] == DebugSectionsOf(view, sections[1..]);
        if step.exit.Completed? {
          OtherSectionsAreInert(env, file, outputDir, view, sections[1..], step.effects);
        }
      } else {
        OtherSectionsAreInert(env, file, outputDir, view, sections[1..], log);
      }
    }
  }

  /** Headers are visited in table order: scanning `a + b` is scanning `a`, then `b` if nothing stopped. */
  lemma {:induction false} ScanAppend(env: Env, file: Path, outputDir: Path, view: ElfView, a: seq<SectionHeader>, b: seq<SectionHeader>, log: seq<Effect>)
    ensures Scan(env, file, outputDir, view, a + b, log) ==
      var first := Scan(env, file, outputDir, view, a, log);
      if first.exit.Completed? then Scan(env, file, outputDir, view, b, first.effects) else first
    decreases |a|
  {
    if a == [] {
      assert a + b == b;
    } else {
      assert (a + b)[0] == a[0] && (a + b)[1..] == a[1..] + b;
      var step := Visit(env, file, outputDir, view, a[0], log);
      if step.exit.Completed? {
        ScanAppend(env, file, outputDir, view, a[1..], b, step.effects);
      }
    }
  }

  /**
   * Within one file, a debug section overwrites whatever the headers before
   * it wrote to its output path (an earlier section with the same name, say):
   * the file holds what this section's own effects put there.
   */
  lemma LaterSectionOverwrites(env: Env, file: Path, outputDir: Path, view: ElfView, before: seq<SectionHeader>, s: SectionHeader, log: seq<Effect>)
    requires DebugNamed(view, s) && FileName(file).Some?
    requires var first := Scan(env, file, outputDir, view, before, log);
      first.exit.Completed? && !env.ioFails(first.effects, Create(OutputPath(file, outputDir, view, s)))
    ensures var first := Scan(env, file, outputDir, view, before, log);
      var r := Scan(env, file, outputDir, view, before + [s], log);
      var p := OutputPath(file, outputDir, view, s);
      |first.effects| < |r.effects| && p in Files(r.effects) &&
      p in Files(r.effects[|first.effects|..]) &&
      Files(r.effects)[p] == Files(r.effects[|first.effects|..])[p]
  {
    var first := Scan(env, file, outputDir, view, before, log);
    var p := OutputPath(file, outputDir, view, s);
    ScanAppend(env, file, outputDir, view, before, [s], log);
    var step := Visit(env, file, outputDir, view, s, first.effects);
    assert [s][1..] == [];
    var r := Scan(env, file, outputDir, view, before + [s], log);
    assert r.effects == step.effects;
    var own := step.effects[|first.effects|..];
    assert step.effects == first.effects + own;
    assert own[0] == Create(p);
    CreateResets(first.effects, own, p);
  }

  /** The output files the run may touch: one per debug-section name. */
  predicate IsDebugOutput(file: Path, outputDir: Path, p: Path) {
    exists i :: 0 <= i < |DEBUG_SECTIONS| && BuildPath(outputDir, file, DEBUG_SECTIONS[i]) == Some(p)
  }

  /** Every effect concerns one of the file's debug-section outputs. */
  predicate Attributable(file: Path, outputDir: Path, e: Effect) {
    match e
    case Create(p) => IsDebugOutput(file, outputDir, p)
    case Write(p, _) => IsDebugOutput(file, outputDir, p)
    case OutOfRange(section, f) => section in DEBUG_SECTIONS && f == file
    case FileFailed(_, _) => false
  }

  /** Every effect from position `from` on is attributable. */
  predicate AttributableFrom(file: Path, outputDir: Path, effects: seq<Effect>, from: nat) {
    forall k :: from <= k < |effects| ==> Attributable(file, outputDir, effects[k])
  }

  lemma VisitAttributable(env: Env, file: Path, outputDir: Path, view: ElfView, s: SectionHeader, log: seq<Effect>)
    ensures AttributableFrom(file, outputDir, Visit(env, file, outputDir, view, s, log).effects, |log|)
  {
    var name := ResolvedName(view, s);
    if name.Some? && IsDebugSection(name.value) && FileName(file).Some? {
      var i :| 0 <= i < |DEBUG_SECTIONS| && DEBUG_SECTIONS[i] == name.value;
      assert IsDebugOutput(file, outputDir, BuildPath(outputDir, file, name.value).value);
    }
  }

  lemma {:induction false} ScanAttributable(env: Env, file: Path, outputDir: Path, view: ElfView, sections: seq<SectionHeader>, log: seq<Effect>)
    ensures AttributableFrom(file, outputDir, Scan(env, file, outputDir, view, sections, log).effects, |log|)
    decreases |sections|
  {
    if sections != [] {
      var step := Visit(env, file, outputDir, view, sections[0], log);
      VisitAttributable(env, file, outputDir, view, sections[0], log);
      if step.exit.Completed? {
        ScanAttributable(env, file, outputDir, view, sections[1..], step.effects);
        var r := Scan(env, file, outputDir, view, sections[1..], step.effects);
        assert r == Scan(env, file, outputDir, view, sections, log);
        forall k | |log| <= k < |r.effects|
          ensures Attributable(file, outputDir, r.effects[k])
        {
          if k < |step.effects| {
            assert r.effects[k] == step.effects[k];
          }
        }
      }
    }
  }

  /**
   * Only debug sections have effects: every file created or written is the
   * output path of one of the five names, and every diagnostic names one of them.
   */
  lemma ExtractTouchesOnlyDebugOutputs(file: Path, outputDir: Path, loaded: Loaded, env: Env)
    ensures forall e :: e in Extract(file, outputDir, loaded, env).effects ==> Attributable(file, outputDir, e)
  {
    var r := Extract(file, outputDir, loaded, env);
    if loaded.ElfObject? {
      ScanAttributable(env, file, outputDir, loaded.view, loaded.view.sectionHeaders, []);
      assert AttributableFrom(file, outputDir, r.effects, 0);
    }
  }

  // -------------------------------------------------------- output files

  lemma FilesAfterCreateWrite(log: seq<Effect>, p: Path, data: seq<byte>)
    ensures Files(log + [Create(p), Write(p, data)])[p] == data
  {
    var l := log + [Create(p), Write(p, data)];
    assert l[..|l| - 1] == log + [Create(p)];
    assert (log + [Create(p)])[..|log|] == log;
  }

  /**
   * A later `Create` truncates: once `later` creates `p` again, what the file
   * holds is decided by `later` alone, so a later section (or a later input
   * file) with the same output path overwrites an earlier one.
   */
  lemma {:induction false} CreateResets(earlier: seq<Effect>, later: seq<Effect>, p: Path)
    requires Create(p) in later
    ensures p in Files(earlier + later) && p in Files(later)
    ensures Files(earlier + later)[p] == Files(later)[p]
    decreases |later|
  {
    var all := earlier + later;
    var last := later[|later| - 1];
    assert all[..|all| - 1] == earlier + later[..|later| - 1];
    assert all[|all| - 1] == last;
    if last != Create(p) {
      assert Create(p) in later[..|later| - 1] by {
        var k :| 0 <= k < |later| && later[k] == Create(p);
        assert k < |later| - 1;
        assert later[..|later| - 1][k] == Create(p);
      }
      CreateResets(earlier, later[..|later| - 1], p);
    }
  }

  /** `e` creates or writes the output file `p`. */
  predicate Touches(e: Effect, p: Path) {
    (e.Create? || e.Write?) && e.path == p
  }

  /** The output files are exactly the paths some effect creates or writes. */
  lemma {:induction false} FilesDomain(log: seq<Effect>, p: Path)
    ensures p in Files(log) <==> exists k :: 0 <= k < |log| && Touches(log[k], p)
    decreases |log|
  {
    if log != [] {
      var init := log[..|log| - 1];
      FilesDomain(init, p);
      if p in Files(init) {
        var k :| 0 <= k < |init| && Touches(init[k], p);
        assert Touches(log[k], p);
      }
      if exists k :: 0 <= k < |log| && Touches(log[k], p) {
        var k :| 0 <= k < |log| && Touches(log[k], p);
        if k < |init| {
          assert Touches(init[k], p);
        }
      }
    }
  }

  /** Diagnostics do not change the output files. */
  lemma DiagnosticKeepsFiles(log: seq<Effect>, e: Effect)
    requires e.OutOfRange? || e.FileFailed?
    ensures Files(log + [e]) == Files(log)
  {
    assert (log + [e])[..|log|] == log;
  }

  // ------------------------------------------------------- byte order

  /**
   * The context the source builds gets the byte order wrong: a 64-bit
   * little-endian object (x86-64, AArch64) is given big-endian order, and a
   * 32-bit big-endian one little-endian order.
   */
  lemma SourceCtxMislabelsByteOrder()
    ensures SourceCtx(Class64) != HeaderCtx(Class64, Little)
    ensures SourceCtx(Class32) != HeaderCtx(Class32, Big)
  {
  }

  /** The only use of the context is the header size, which ignores the byte order. */
  lemma ByteOrderDoesNotChangeHeaderSize(c: Container, e: Endian)
    ensures CompressionHeaderSize(SourceCtx(c)) == CompressionHeaderSize(HeaderCtx(c, e))
  {
  }

  // --------------------------------------------------------- a scenario

  /** The section-name string table of the scenario below. */
  function LibSoNames(n: nat): NameLookup {
    if n == 1 then Name(".text") else if n == 7 then Name(".debug_info")
    else if n == 19 then Name(".debug_line") else NoName
  }

  function LibSoHeaders(streamSize: nat): seq<SectionHeader>
    requires streamSize < 0x1_0000
  {
    [SectionHeader(1, 0, 40, 0), SectionHeader(7, 0, 40, 0), SectionHeader(19, 40, 24 + streamSize, SHF_COMPRESSED)]
  }

  function NoIoFailure(history: seq<Effect>, e: Effect): bool {
    false
  }

  function LibSoView(info: seq<byte>, header: seq<byte>, stream: seq<byte>): ElfView
    requires |stream| < 0x1_0000
  {
    ElfView(info + header + stream, LibSoHeaders(|stream|), LibSoNames, Some(Class64), Little)
  }

  const LIB_SO: Path := [Normal("build"), Normal("lib.so")]

  lemma LibSoInfoCopied(outputDir: Path, info: seq<byte>, header: seq<byte>, stream: seq<byte>, env: Env)
    requires |info| == 40 && |header| == 24 && |stream| < 0x1_0000 && env.ioFails == NoIoFailure
    ensures var p := outputDir + [Normal("lib.so.debug_info")];
      Visit(env, LIB_SO, outputDir, LibSoView(info, header, stream), LibSoHeaders(|stream|)[1], []) ==
      FileRun([Create(p), Write(p, info)], Completed)
  {
    var view := LibSoView(info, header, stream);
    var s := LibSoHeaders(|stream|)[1];
    DebugSectionTable(".debug_info");
    assert OutputPath(LIB_SO, outputDir, view, s) == outputDir + [Normal("lib.so.debug_info")] by {
      assert "lib.so" + ".debug_info" == "lib.so.debug_info";
    }
    assert view.buffer[0..40] == info;
    PlainSectionCopied(env, LIB_SO, outputDir, view, s, []);
  }

  lemma LibSoLineInflated(outputDir: Path, info: seq<byte>, header: seq<byte>, stream: seq<byte>, out: seq<byte>, env: Env, log: seq<Effect>)
    requires |info| == 40 && |header| == 24 && |stream| < 0x1_0000 && env.ioFails == NoIoFailure
    requires env.inflate(stream) == Some(out)
    ensures var p := outputDir + [Normal("lib.so.debug_line")];
      Visit(env, LIB_SO, outputDir, LibSoView(info, header, stream), LibSoHeaders(|stream|)[2], log) ==
      FileRun(log + [Create(p), Write(p, out)], Completed)
  {
    var view := LibSoView(info, header, stream);
    var s := LibSoHeaders(|stream|)[2];
    DebugSectionTable(".debug_line");
    assert OutputPath(LIB_SO, outputDir, view, s) == outputDir + [Normal("lib.so.debug_line")] by {
      assert "lib.so" + ".debug_line" == "lib.so.debug_line";
    }
    assert view.buffer[64..64 + |stream|] == stream;
    CompressedSectionInflated(env, LIB_SO, outputDir, view, s, log, out);
  }

  lemma LibSoScan(outputDir: Path, info: seq<byte>, header: seq<byte>, stream: seq<byte>, out: seq<byte>, env: Env)
    requires |info| == 40 && |header| == 24 && |stream| < 0x1_0000 && env.ioFails == NoIoFailure
    requires env.inflate(stream) == Some(out)
    ensures var infoPath, linePath := outputDir + [Normal("lib.so.debug_info")], outputDir + [Normal("lib.so.debug_line")];
      var view := LibSoView(info, header, stream);
      Scan(env, LIB_SO, outputDir, view, view.sectionHeaders, []) ==
      FileRun([Create(infoPath), Write(infoPath, info), Create(linePath), Write(linePath, out)], Completed)
  {
    var view := LibSoView(info, header, stream);
    var sections := view.sectionHeaders;
    var infoPath, linePath := outputDir + [Normal("lib.so.debug_info")], outputDir + [Normal("lib.so.debug_line")];
    var l2 := [Create(infoPath), Write(infoPath, info)];
    var log := [Create(infoPath), Write(infoPath, info), Create(linePath), Write(linePath, out)];
    assert log == l2 + [Create(linePath), Write(linePath, out)];
    DebugSectionTable(".text");
    OtherSectionIsSkipped(env, LIB_SO, outputDir, view, sections[0], []);
    LibSoInfoCopied(outputDir, info, header, stream, env);
    LibSoLineInflated(outputDir, info, header, stream, out, env, l2);
    assert sections[0..] == sections && sections[3..] == [];
    ScanAt(env, LIB_SO, outputDir, view, sections, 0, []);
    ScanAt(env, LIB_SO, outputDir, view, sections, 1, []);
    ScanAt(env, LIB_SO, outputDir, view, sections, 2, l2);
  }

  /**
   * `lib.so` with `.text`, a plain 40-byte `.debug_info` and a compressed
   * `.debug_line` (a 24-byte header, then a stream): the output directory
   * ends up holding exactly `lib.so.debug_info` with the 40 bytes and
   * `lib.so.debug_line` with the inflated stream, and nothing for `.text`.
   */
  lemma LibSoScenario(outputDir: Path, info: seq<byte>, header: seq<byte>, stream: seq<byte>, out: seq<byte>,
                      inflate: seq<byte> -> Option<seq<byte>>)
    requires |info| == 40 && |header| == 24 && |stream| < 0x1_0000
    requires inflate(stream) == Some(out)
    ensures var r := Extract(LIB_SO, outputDir, ElfObject(LibSoView(info, header, stream)), Env(false, NoIoFailure, inflate));
      r.exit == Completed &&
      Files(r.effects) == map[outputDir + [Normal("lib.so.debug_info")] := info,
                              outputDir + [Normal("lib.so.debug_line")] := out]
  {
    var env := Env(false, NoIoFailure, inflate);
    var infoPath, linePath := outputDir + [Normal("lib.so.debug_info")], outputDir + [Normal("lib.so.debug_line")];
    LibSoScan(outputDir, info, header, stream, out, env);
    assert infoPath != linePath by {
      assert infoPath[|outputDir|] != linePath[|outputDir|];
    }
    FilesOfCreateWritePairs(infoPath, info, linePath, out);
  }

  lemma FilesOfCreateWritePairs(p: Path, a: seq<byte>, q: Path, b: seq<byte>)
    requires p != q
    ensures Files([Create(p), Write(p, a), Create(q), Write(q, b)]) == map[p := a, q := b]
  {
    var l := [Create(p), Write(p, a), Create(q), Write(q, b)];
    assert l[..3] == [Create(p), Write(p, a), Create(q)];
    assert l[..3][..2] == [Create(p), Write(p, a)];
    assert l[..3][..2][..1] == [Create(p)];
    assert l[..3][..2][..1][..0] == [];
    assert Files([Create(p)]) == map[p := []];
    assert [] + a == a && [] + b == b;
    assert Files([Create(p), Write(p, a)]) == map[p := a];
    assert Files([Create(p), Write(p, a), Create(q)]) == map[p := a, q := []];
  }
}
