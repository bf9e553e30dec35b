/**
 * The already-parsed view of an ELF object that the extractor works on.
 * Decoding the ELF header, the section-header table and the string table
 * is done by the goblin library and is not modelled: the view is an input.
 */
module Elf {
  import opened Wrappers

  type byte = b: int | 0 <= b < 0x100

  const U64_LIMIT: int := 0x1_0000_0000_0000_0000
  type u64 = x: int | 0 <= x < U64_LIMIT

  /** SHF_COMPRESSED of the ELF generic System V ABI, chapter 4 "Sections". */
  const SHF_COMPRESSED: bv64 := 0x800

  /** One entry of the section-header table, with the fields the extractor reads. */
  datatype SectionHeader = SectionHeader(shName: nat, shOffset: u64, shSize: u64, shFlags: bv64)

  /** `SHF_COMPRESSED` is bit 11 of `sh_flags`; no other flag bit matters. */
  predicate IsCompressed(s: SectionHeader): (b: bool)
    ensures b <==> (s.shFlags >> 11) & 1 == 1
    ensures forall other: bv64 {:trigger other & SHF_COMPRESSED} ::
      other & SHF_COMPRESSED == 0 ==> b == ((s.shFlags | other) & SHF_COMPRESSED != 0)
  {
    s.shFlags & SHF_COMPRESSED != 0
  }

  /**
   * What a string-table lookup gives: `None` (offset outside the table),
   * `Some(Err)` (bytes that are not valid text) or `Some(Ok(name))`.
   */
  datatype NameLookup = NoName | BadName | Name(name: string)

  /** The word size of the object: goblin's `Container::Little` (ELFCLASS32) and `Container::Big` (ELFCLASS64). */
  datatype Container = Class32 | Class64

  datatype Endian = Little | Big

  /** goblin's parsing context: a word size and a byte order. */
  datatype Ctx = Ctx(container: Container, le: Endian)

  /**
   * Byte widths of the fields of the compression header, in order:
   * Elf32_Chdr is ch_type, ch_size, ch_addralign (all Elf32_Word);
   * Elf64_Chdr is ch_type, ch_reserved (Elf64_Word) and ch_size, ch_addralign (Elf64_Xword).
   */
  function ChdrFieldWidths(c: Container): seq<nat> {
    match c
    case Class32 => [4, 4, 4]
    case Class64 => [4, 4, 8, 8]
  }

  function Sum(widths: seq<nat>): nat {
    if widths == [] then 0 else widths[0] + Sum(widths[1..])
  }

  /**
   * `CompressionHeader::size(ctx)`: the number of bytes in front of the
   * compressed stream. It depends on the word size only.
   */
  function CompressionHeaderSize(ctx: Ctx): (n: nat)
    ensures ctx.container == Class32 ==> n == 12
    ensures ctx.container == Class64 ==> n == 24
  {
    ChdrSizes();
    Sum(ChdrFieldWidths(ctx.container))
  }

  lemma ChdrSizes()
    ensures Sum(ChdrFieldWidths(Class32)) == 12
    ensures Sum(ChdrFieldWidths(Class64)) == 24
  {
  }

  /**
   * The parsed ELF object: the whole file's bytes, the section headers in
   * table order, the section-name string table as a lookup, the word size
   * (absent when `header.container()` fails) and the header's byte order.
   */
  datatype ElfView = ElfView(
    buffer: seq<byte>,
    sectionHeaders: seq<SectionHeader>,
    strtab: nat -> NameLookup,
    container: Option<Container>,
    endian: Endian)
}
