# dwarf-extractor, modelled in Dafny

dwarf-extractor copies the DWARF sections of ELF files into standalone
files. For each input it reads the file, lets goblin parse it, and walks
the section-header table in order. A section whose name is one of
`.debug_abbrev`, `.debug_info`, `.debug_loc`, `.debug_line`, `.debug_str`
is written to `<output dir>/<file name><section name>`. If the section
carries `SHF_COMPRESSED`, its compression header is skipped and the rest
is zlib-inflated into the file.

The model takes goblin's parsed view as input (`Elf.ElfView`: the byte
buffer, the section headers, the string-table lookup, the word size and
byte order). Its output is an ordered log of effects (`DwarfExtractor.Effect`):
create or truncate a path, write bytes, report an out-of-range section,
report a failed file. It also says how the file ended: completed, failed
with an error that `?` propagates, or panicked. Things the program cannot
decide itself come from `DwarfExtractor.Env`:
- whether an I/O call fails, given the effects already performed on this file;
- what zlib inflation yields (`None` for a corrupt stream);
- whether the build has overflow checks (a debug build) or wraps (release).

The host is assumed to be 64-bit, so `usize` is 64 bits wide.

Files:
- `wrappers.dfy`: `Option`.
- `elf.dfy`: the parsed ELF view, `SHF_COMPRESSED` and the compression-header size from the ELF generic ABI's `Elf32_Chdr`/`Elf64_Chdr` layouts.
- `paths.dfy`: paths as component sequences, `file_name` and `join`.
- `extractor.dfy`: `DEBUG_SECTIONS`, `build_path`, one loop iteration (`Visit`), the loop (`Scan`), `extract_from_file` (`Extract`), and the imperative `VisitSection` / `ExtractFromFile`, proved equal to them. `Files` gives the output files a log leaves.
- `extractor_lemmas.dfy`: the properties.
- `driver.dfy`: `main`'s loop over the input files.

Behaviour of the code a reader might not expect, which the model keeps:
- A matched section that is out of range still leaves an empty output file, because the file is created first.
- A compressed section of an object whose word size is unknown is skipped with no diagnostic.
- A failed inflation panics through `unwrap` and ends the whole run; it is not a per-file error.
- The loop builds the parsing context as the code does (`SourceCtx`, byte order taken from the word size). The corrected context (`HeaderCtx`) gives the same compression-header size; see "## Findings".

## Model

| member | source | states |
|---|---|---|
| `DwarfExtractor.Any` | src/main.rs:46 | `any` over the name table is true exactly when the name is an element of the table |
| `ExtractorLemmas.DebugSectionTable` | src/main.rs:14-20 | a name is classified as debug exactly when it equals one of the five names; no prefix or substring match |
| `DwarfExtractor.BuildPath` | src/main.rs:22-28 | a path exists exactly when the input has a file name; it is the output directory joined with the file name followed directly by the suffix |
| `Paths.FileName` | src/main.rs:24 | the file name exists exactly when the last component is a normal one, and it is that component's name |
| `Paths.Join` | src/main.rs:26 | joining adds exactly one final component; the directory stays a prefix and the new file name is the joined name |
| `ExtractorLemmas.BuildPathSplits` | src/main.rs:22-27 | the output path is one component below the output directory; that component is the file name, then exactly the section name |
| `ExtractorLemmas.BuildPathSeparatesSections` | src/main.rs:22-27 | for one input, two section names give the same output path exactly when they are equal |
| `ExtractorLemmas.BuildPathCollides` | src/main.rs:22-27 | two inputs give the same output path for a section exactly when their file names are equal, whatever their directories |
| `DwarfExtractor.ResolvedName` | src/main.rs:37-45 | only `Some(Ok(name))` yields a name, and it is that looked-up `name`; `Some(Err)` and `None` yield none |
| `DwarfExtractor.UsizeAdd` | src/main.rs:50-51 | `sh_offset + sh_size` panics exactly when overflow checks are on and the sum reaches 2^64; otherwise it is the sum modulo 2^64 |
| `DwarfExtractor.SliceGet` | src/main.rs:52 | `buffer.get(start..end)` succeeds exactly when `start <= end <= len`, and then holds the bytes `start..end` |
| `Elf.IsCompressed` | src/main.rs:54 | a section is compressed exactly when bit 11 (`SHF_COMPRESSED`) of `sh_flags` is set; no other flag bit changes the answer |
| `Elf.CompressionHeaderSize` | src/main.rs:64 | the compression header is 12 bytes for ELFCLASS32 and 24 for ELFCLASS64 (the sum of the `Elf32_Chdr` / `Elf64_Chdr` field widths) |
| `DwarfExtractor.SourceCtx` | src/main.rs:55-60 | as written: the context keeps the word size, and its byte order is big exactly when the word size is 64-bit |
| `DwarfExtractor.HeaderCtx` | src/main.rs:55-60 | corrected: the context has the header's word size and the header's byte order |
| `ExtractorLemmas.SourceCtxMislabelsByteOrder` | src/main.rs:57-60 | a 64-bit little-endian object gets big-endian order; a 32-bit big-endian object gets little-endian order |
| `ExtractorLemmas.ByteOrderDoesNotChangeHeaderSize` | src/main.rs:55-64 | both contexts give the same compression-header size, so the byte-order error has no effect on the output |
| `DwarfExtractor.Visit` | src/main.rs:36-76 | one iteration only appends to the log, at most two effects; a `Create` can only be its first effect, and for a debug section whose create succeeds it is the create of that section's output path; a section without a debug name has no effect and the loop goes on |
| `DwarfExtractor.Scan` | src/main.rs:35-77 | the loop only appends to the log, at most two effects per header |
| `DwarfExtractor.Extract` | src/main.rs:30-82 | an unreadable file, a parse error or a non-ELF object end the file with their error and no effects |
| `DwarfExtractor.VisitSection` | src/main.rs:36-76 | the imperative loop body, with its `continue`s and early returns, gives the same effects and exit as `Visit` |
| `DwarfExtractor.ExtractFromFile` | src/main.rs:30-84 | the imperative loop gives the same effects and exit as `Extract` |
| `ExtractorLemmas.UnresolvedNameIsSkipped` | src/main.rs:37-45 | a header whose name lookup gives `None` or `Some(Err)` is skipped with no file and no diagnostic, and the loop goes on |
| `ExtractorLemmas.OtherSectionIsSkipped` | src/main.rs:46 | a resolved name outside the five has no effect and the loop goes on |
| `ExtractorLemmas.PlainSectionCopied` | src/main.rs:49-53 | a plain debug section inside the buffer: the file is created, then receives exactly `buffer[sh_offset..sh_offset+sh_size]`, and that is its content |
| `ExtractorLemmas.PlainSectionWriteFails` | src/main.rs:68 | a failed `write_all` ends the file with a write error after the create |
| `ExtractorLemmas.CreateFailureEndsFile` | src/main.rs:49 | a failed `File::create` ends the file with a create error and no new effect |
| `ExtractorLemmas.CompressedSectionInflated` | src/main.rs:54-66 | a compressed debug section: the decoder gets the section bytes after the compression header, and its output is exactly the file's content |
| `ExtractorLemmas.CompressionHeaderNotCopied` | src/main.rs:64-65 | changing the compression-header bytes changes no effect of a compressed section |
| `ExtractorLemmas.ShortCompressedSectionPanics` | src/main.rs:65 | a compressed section shorter than its header panics, after its file was created |
| `ExtractorLemmas.CorruptStreamPanics` | src/main.rs:66 | a stream the decoder rejects panics through `unwrap`, after the file was created |
| `ExtractorLemmas.UnknownContainerLeavesEmptyFile` | src/main.rs:49-62 | a compressed section with an unknown word size is skipped after its file was created empty, and the loop goes on |
| `ExtractorLemmas.WrappedEndPrecedesStart` | src/main.rs:51-52 | without overflow checks, a wrapped end lies before the start, so `get` fails |
| `ExtractorLemmas.OutOfRangeSectionReported` | src/main.rs:49-52 | a debug section past the buffer (or wrapping): create, then one out-of-range diagnostic; the file stays empty and the loop goes on |
| `ExtractorLemmas.OverflowPanicsWithChecks` | src/main.rs:51 | with overflow checks, an overflowing range panics after the file was created |
| `ExtractorLemmas.DiagnosticKeepsFiles` | src/main.rs:71-73 | the out-of-range diagnostic (and main's error report) changes no output file |
| `ExtractorLemmas.OtherSectionsAreInert` | src/main.rs:35-46 | deleting every header without a debug name from the table leaves the scan's effects and exit unchanged |
| `ExtractorLemmas.DebugSectionsOfAppend` | src/main.rs:35-46 | keeping only the debug-named headers preserves table order: filtering `a + b` is filtering `a`, then `b` |
| `ExtractorLemmas.ScanAppend` | src/main.rs:35 | headers are visited in table order: scanning `a + b` scans `a`, then `b` from where `a` left off, unless `a` stopped the file |
| `ExtractorLemmas.LaterSectionOverwrites` | src/main.rs:35-49 | within one file, a debug section that creates its output path leaves that file holding only what its own effects wrote, whatever earlier headers (such as one with the same name) put there |
| `ExtractorLemmas.ExtractTouchesOnlyDebugOutputs` | src/main.rs:46-49 | every file created or written is the output path of one of the five names; every diagnostic names one of them and this input |
| `ExtractorLemmas.FilesDomain` | src/main.rs:49-68 | the output files `Files` derives from a log are exactly the paths some `File::create` or write in the log names |
| `ExtractorLemmas.FilesAfterCreateWrite` | src/main.rs:49-68 | a create (which truncates) followed by a write leaves the file holding exactly the written bytes, whatever the log held before |
| `ExtractorLemmas.CreateResets` | src/main.rs:49 | once a later part of the log creates a path again, that later part alone decides the file's content; a later section or file with the same path overwrites an earlier one |
| `ExtractorLemmas.LibSoScenario` | src/main.rs:30-84 | `lib.so` with `.text`, a 40-byte `.debug_info` and a compressed `.debug_line` yields exactly the two files `lib.so.debug_info` (the 40 bytes) and `lib.so.debug_line` (the inflated stream) |
| `Driver.RunFiles` | src/main.rs:105-112 | the file loop never ends with an error: per-file errors are reported and the loop goes on |
| `Driver.Run` | src/main.rs:105-112 | the imperative file loop gives the same effects and exit as `RunFiles` |
| `Driver.RunCompletesUnlessPanic` | src/main.rs:105-112 | the loop reaches its end exactly when no input file panics |
| `Driver.RunReportsEveryFailure` | src/main.rs:106-110 | every file whose extraction failed has its error reported, provided neither it nor an earlier file panicked; later files may panic |
| `Driver.LaterFileOverwrites` | src/main.rs:105-106 | an output path that the second of two input files creates ends up with the second file's content, whatever the first wrote there |

## Left out

- Reading the input and parsing it: `fs::read` and goblin's `Object::parse` are foreign code. Their results are the input `Loaded` (unreadable, failed to parse, not ELF, or the parsed view).
- goblin's ELF header, section-header and string-table decoding. `Strtab::get` is an uninterpreted lookup in the view.
- zlib inflation (flate2): the uninterpreted `Env.inflate`.
- Partial writes: the bytes that `io::copy` (line 66) or `write_all` (line 68) may already have written before failing are not modelled. The model records only the panic or the `WriteFailed` error, and `Files` leaves that output file empty.
- Real file-system I/O: `File::create`, `write_all` and `io::copy` are log entries. Whether each fails is decided by `Env.ioFails`, which sees only the current file's effects.
- `main`'s argument parsing and `fs::create_dir_all` (src/main.rs:86-104): command-line plumbing. Message text on stderr is not modelled; diagnostics are tagged log entries.
- A failed write to stderr inside `eprintln!` (which panics) is not modelled.
- Non-UTF-8 paths: the `to_str()` at line 72 (`unwrap_or_default`) and the one at line 80 (`unwrap`, which panics) never matter, because path components are strings.
- `CurDir` components, path prefixes and other OS-specific `OsStr`/`PathBuf` rules.
- A 32-bit host, where `sh_offset as usize` would truncate: the model fixes `usize` at 64 bits.
- Concurrency: none in the source.

## Findings

| source | as written | input that shows it | evidently intended | confidence | as-written member | corrected member |
|---|---|---|---|---|---|---|
| src/main.rs:57-60 | the byte order of the parsing context is `Big` when `Container::is_big()`, which means "64-bit", not "big-endian" | any 64-bit little-endian ELF (x86-64) gets a big-endian context | the byte order declared by the ELF header | not executed; only the header size depends on the context, so no output changes | `DwarfExtractor.SourceCtx` (used by `Visit` and `VisitSection`), with `ExtractorLemmas.SourceCtxMislabelsByteOrder` | `DwarfExtractor.HeaderCtx`, with `ExtractorLemmas.ByteOrderDoesNotChangeHeaderSize` |
