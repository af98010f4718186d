/** The export walk over the DLL file: every RVA goes through the section table. */
module PeDisk {
  import opened Words
  import opened Wrappers
  import opened PeFormat

  datatype Headers = Headers(
    sectionTable: seq<byte>, exportDirectoryRva: u32, exportDirectorySize: u32,
    timestamp: u32, sizeOfImage: u32)

  function ParseHeaders(image: seq<byte>): Outcome<Headers> {
    var dos :- SliceAt(image, 0, 2);
    if dos != [0x4D, 0x5A] then Err(BadSignature)
    else
      var pe :- U32At(image, 0x3C);
      var signature :- SliceAt(image, pe, 4);
      if signature != [0x50, 0x45, 0, 0] then Err(BadSignature)
      else
        var coff :- CheckedOffset(pe, 4);
        var machine :- U16At(image, coff);
        var timestampOffset :- CheckedOffset(coff, 4);
        var timestamp :- U32At(image, timestampOffset);
        var characteristicsOffset :- CheckedOffset(pe, 22);
        var characteristics :- U16At(image, characteristicsOffset);
        if machine != PE_MACHINE_I386 then Err(WrongMachine)
        else if !IsDll(characteristics) then Err(NotDll)
        else ParseOptionalHeader(image, coff, timestamp)
  }

  function ParseOptionalHeader(image: seq<byte>, coff: nat, timestamp: u32): Outcome<Headers> {
    var sectionCountOffset :- CheckedOffset(coff, 2);
    var sectionCount :- U16At(image, sectionCountOffset);
    if sectionCount == 0 then Err(NoSections)
    else
      var optionalSizeOffset :- CheckedOffset(coff, 16);
      var optionalSize :- U16At(image, optionalSizeOffset);
      if optionalSize < MIN_PE32_OPTIONAL_HEADER_SIZE then Err(BadOptionalHeader)
      else
        var optionalOffset :- CheckedOffset(coff, COFF_HEADER_SIZE);
        var optional :- SliceAt(image, optionalOffset, optionalSize);
        var magic :- U16At(optional, 0);
        if magic != PE32_MAGIC then Err(NotPe32)
        else
          var sizeOfImage :- U32At(optional, SIZE_OF_IMAGE_OFFSET);
          if sizeOfImage == 0 || sizeOfImage > MAX_DLL_SIZE then Err(BadImageSize)
          else
            var directories :- U32At(optional, NUMBER_OF_DATA_DIRECTORIES_OFFSET);
            if directories == 0 then Err(NoExportDirectory)
            else
              var rva :- U32At(optional, EXPORT_DIRECTORY_RVA_OFFSET);
              var size :- U32At(optional, EXPORT_DIRECTORY_SIZE_OFFSET);
              if rva == 0 || size < EXPORT_DIRECTORY_HEADER_SIZE then Err(NoExportDirectory)
              else
                var tableOffset :- CheckedOffset(optionalOffset, optionalSize);
                var table :- SliceAt(image, tableOffset, sectionCount * SECTION_HEADER_SIZE);
                Ok(Headers(table, rva, size, timestamp, sizeOfImage))
  }

  // ----- section translation -----

  function SectionCount(table: seq<byte>): nat {
    |table| / SECTION_HEADER_SIZE
  }

  function SectionAt(table: seq<byte>, index: nat): (section: seq<byte>)
    requires index < SectionCount(table)
    ensures |section| == SECTION_HEADER_SIZE
  {
    table[index * SECTION_HEADER_SIZE..index * SECTION_HEADER_SIZE + SECTION_HEADER_SIZE]
  }

  function VirtualSize(section: seq<byte>): u32
    requires |section| == SECTION_HEADER_SIZE
  {
    Word32(section, 8)
  }

  function VirtualAddress(section: seq<byte>): u32
    requires |section| == SECTION_HEADER_SIZE
  {
    Word32(section, 12)
  }

  function RawSize(section: seq<byte>): u32
    requires |section| == SECTION_HEADER_SIZE
  {
    Word32(section, 16)
  }

  function RawPointer(section: seq<byte>): u32
    requires |section| == SECTION_HEADER_SIZE
  {
    Word32(section, 20)
  }

  /** What one section says about an RVA range: nothing, or an answer. */
  function TranslateIn(image: seq<byte>, section: seq<byte>, rva: u32, size: u32): Option<Outcome<nat>>
    requires |section| == SECTION_HEADER_SIZE && rva + size <= U32_MAX
  {
    var mapped := if VirtualSize(section) > RawSize(section) then VirtualSize(section) else RawSize(section);
    var end := VirtualAddress(section) + mapped;
    if end > U32_MAX then Some(Err(Overflow))
    else if rva < VirtualAddress(section) || rva + size > end then None
    else
      var offset := rva - VirtualAddress(section);
      if offset + size > RawSize(section) then Some(Err(NotBacked))
      else if RawPointer(section) + offset > U32_MAX then Some(Err(Overflow))
      else Some(match SliceAt(image, RawPointer(section) + offset, size)
                case Ok(_) => Ok(RawPointer(section) + offset)
                case Err(e) => Err(e))
  }

  /** The first section with an answer decides. */
  function TranslateFrom(image: seq<byte>, table: seq<byte>, rva: u32, size: u32, index: nat): Outcome<nat>
    requires rva + size <= U32_MAX && index <= SectionCount(table)
    decreases SectionCount(table) - index
  {
    if index == SectionCount(table) then Err(Unmapped)
    else match TranslateIn(image, SectionAt(table, index), rva, size)
      case Some(answer) => answer
      case None => TranslateFrom(image, table, rva, size, index + 1)
  }

  function Translate(image: seq<byte>, table: seq<byte>, rva: u32, size: u32): Outcome<nat> {
    if rva + size > U32_MAX then Err(Overflow) else TranslateFrom(image, table, rva, size, 0)
  }

  /** The range lies wholly in the raw data of section `index`, at `offset`. */
  ghost predicate BackedAt(image: seq<byte>, table: seq<byte>, rva: u32, size: u32, index: nat, offset: nat) {
    && index < SectionCount(table)
    && var section := SectionAt(table, index);
       && VirtualAddress(section) <= rva
       && rva - VirtualAddress(section) + size <= RawSize(section)
       && offset == RawPointer(section) + (rva - VirtualAddress(section))
       && offset + size <= |image|
  }

  /** A translation that succeeds names raw bytes of some section, inside the file. */
  lemma {:induction false} TranslationIsBacked(image: seq<byte>, table: seq<byte>, rva: u32, size: u32, index: nat)
    requires rva + size <= U32_MAX && index <= SectionCount(table)
    requires TranslateFrom(image, table, rva, size, index).Ok?
    ensures exists k :: BackedAt(image, table, rva, size, k, TranslateFrom(image, table, rva, size, index).value)
    decreases SectionCount(table) - index
  {
    match TranslateIn(image, SectionAt(table, index), rva, size)
    case Some(answer) => assert BackedAt(image, table, rva, size, index, answer.value);
    case None => TranslationIsBacked(image, table, rva, size, index + 1);
  }

  method RvaRangeToFileOffset(image: seq<byte>, table: seq<byte>, rva: u32, size: u32) returns (r: Outcome<nat>)
    ensures r == Translate(image, table, rva, size)
  {
    if rva + size > U32_MAX {
      return Err(Overflow);
    }
    for index := 0 to SectionCount(table)
      invariant TranslateFrom(image, table, rva, size, 0) == TranslateFrom(image, table, rva, size, index)
    {
      var section := SectionAt(table, index);
      var mapped := if VirtualSize(section) > RawSize(section) then VirtualSize(section) else RawSize(section);
      var end := VirtualAddress(section) + mapped;
      if end > U32_MAX {
        return Err(Overflow);
      }
      if rva < VirtualAddress(section) || rva + size > end {
        continue;
      }
      var offset := rva - VirtualAddress(section);
      if offset + size > RawSize(section) {
        return Err(NotBacked);
      }
      if RawPointer(section) + offset > U32_MAX {
        return Err(Overflow);
      }
      var _ :- SliceAt(image, RawPointer(section) + offset, size);
      return Ok(RawPointer(section) + offset);
    }
    return Err(Unmapped);
  }

  // ----- reads through the section table -----

  function ReadRange(image: seq<byte>, table: seq<byte>, rva: u32, size: u32): (r: Outcome<seq<byte>>)
    ensures r.Ok? ==> |r.value| == size
  {
    var offset :- Translate(image, table, rva, size);
    SliceAt(image, offset, size)
  }

  function Ranges(image: seq<byte>, table: seq<byte>): (range: Range)
    ensures Exact(range)
  {
    (rva, size) => ReadRange(image, table, rva, size)
  }

  function Fetcher(image: seq<byte>, table: seq<byte>): Fetch {
    FetchOf(Ranges(image, table))
  }

  method ExportNameAtRva(image: seq<byte>, table: seq<byte>, nameRva: u32) returns (r: Outcome<seq<byte>>)
    ensures r == NameFrom(Fetcher(image, table), nameRva, 0)
  {
    ghost var fetch := Fetcher(image, table);
    var name: seq<byte> := [];
    PrefixNothing(NameFrom(fetch, nameRva, 0));
    for offset := 0 to MAX_EXPORT_NAME_SIZE
      invariant NameFrom(fetch, nameRva, 0) == Prefixed(name, NameFrom(fetch, nameRva, offset))
    {
      if nameRva + offset > U32_MAX {
        return Err(Overflow);
      }
      var fileOffset :- RvaRangeToFileOffset(image, table, nameRva + offset, 1);
      var bytes :- SliceAt(image, fileOffset, 1);
      assert fetch(nameRva + offset) == Ok(bytes[0]);
      if bytes[0] != 0 {
        PrefixStep(fetch, nameRva, offset, name, bytes[0]);
      }
      name := name + [bytes[0]];
      if bytes[0] == 0 {
        return Ok(name);
      }
    }
    return Err(NameTooLong);
  }

  // ----- the export directory -----

  /** The counts and table RVAs of the export directory. */
  function ReadDirectory(range: Range, headers: Headers): Outcome<Directory>
    requires Exact(range)
  {
    if headers.exportDirectoryRva + headers.exportDirectorySize > U32_MAX then Err(Overflow)
    else
      var bytes :- range(headers.exportDirectoryRva, EXPORT_DIRECTORY_HEADER_SIZE);
      var directory := DirectoryOf(bytes);
      if directory.functionCount == 0 || directory.nameCount == 0 then Err(NoNamedExports)
      else Ok(directory)
  }

  function ReadTables(range: Range, headers: Headers): (r: Outcome<Tables>)
    requires Exact(range)
    ensures r.Ok? ==> WellSized(r.value)
  {
    var directory :- ReadDirectory(range, headers);
    if directory.functionCount * 4 > U32_MAX || directory.nameCount * 4 > U32_MAX then Err(Overflow)
    else
      var names :- range(directory.names, directory.nameCount * 4);
      var functions :- range(directory.functions, directory.functionCount * 4);
      var ordinals :- range(directory.ordinals, directory.nameCount * 2);
      Ok(Tables(directory.functionCount, directory.nameCount, functions, names, ordinals,
                headers.exportDirectoryRva, headers.exportDirectoryRva + headers.exportDirectorySize))
  }

  function Exports(image: seq<byte>, headers: Headers): Outcome<Identity> {
    var range := Ranges(image, headers.sectionTable);
    var tables :- ReadTables(range, headers);
    var picked :- Scan(EntriesOf(tables, FetchOf(range), None), tables.nameCount, false, 0, NOTHING_PICKED);
    Conclude(picked, headers.timestamp, headers.sizeOfImage)
  }

  /** What validating the DLL file reports about it. */
  function DiskIdentity(image: seq<byte>): Outcome<Identity> {
    var headers :- ParseHeaders(image);
    Exports(image, headers)
  }

  method FindLifecycleExports(image: seq<byte>, headers: Headers) returns (r: Outcome<Identity>)
    ensures r == Exports(image, headers)
  {
    var table := headers.sectionTable;
    var tables :- ReadTables(Ranges(image, table), headers);
    ghost var fetch := Fetcher(image, table);
    ghost var entries := EntriesOf(tables, fetch, None);
    var initialize: Option<u32>, shutdown: Option<u32> := None, None;
    for index := 0 to tables.nameCount
      invariant Scan(entries, tables.nameCount, false, 0, NOTHING_PICKED) ==
                Scan(entries, tables.nameCount, false, index, Picked(initialize, shutdown))
    {
      assert entries(index) == EntryAt(tables, fetch, None, index);
      var nameRva := Word32(tables.names, index * 4);
      var name :- ExportNameAtRva(image, table, nameRva);
      if name != INITIALIZE_EXPORT && name != SHUTDOWN_EXPORT {
        continue;
      }
      var ordinal := Word16(tables.ordinals, index * 2);
      if ordinal >= tables.functionCount {
        return Err(BadOrdinal);
      }
      var functionRva := Word32(tables.functions, ordinal * 4);
      if functionRva == 0 {
        return Err(BadFunction);
      }
      if tables.directory <= functionRva < tables.directoryEnd {
        return Err(Forwarded);
      }
      if name == INITIALIZE_EXPORT {
        initialize := Some(functionRva);
      } else {
        shutdown := Some(functionRva);
      }
    }
    if initialize.None? || shutdown.None? {
      return Err(MissingExport);
    }
    return Ok(Identity(initialize.value, shutdown.value, headers.timestamp, headers.sizeOfImage));
  }
}
