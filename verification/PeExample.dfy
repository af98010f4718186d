/** A DLL whose export table names the initialize export twice, loaded flat and then
    rewritten in its image base and in a variable: both parsers accept it, and they
    report different initialize addresses as soon as the two entries name different
    functions. */
module PeExample {
  import opened Words
  import opened Wrappers
  import opened PeFormat
  import opened PeAgreement
  import opened PeCompleteness
  import Disk = PeDisk
  import Mapped = PeMapped

  const PE_HEADER := 0x40
  const DIRECTORY := 0x100
  const FUNCTIONS := 0x128
  const NAMES := 0x134
  const ORDINALS := 0x140
  const INITIALIZE_NAME := 0x146
  const SHUTDOWN_NAME := 0x157
  const VARIABLE := 0x166
  const FILE_SIZE := 0x16A
  const IMAGE_SIZE := 0x400

  function DosByte(at: nat): byte {
    match at
    case 0x00 => 0x4D case 0x01 => 0x5A
    case 0x3C => PE_HEADER
    case _ => 0
  }

  function CoffByte(at: nat): byte {
    match at
    case 0x40 => 0x50 case 0x41 => 0x45
    case 0x44 => 0x4C case 0x45 => 0x01  // machine
    case 0x46 => 0x01                    // one section
    case 0x54 => 0x68                    // optional header size
    case 0x57 => 0x20                    // a DLL
    case _ => 0
  }

  function OptionalByte(at: nat): byte {
    match at
    case 0x58 => 0x0B case 0x59 => 0x01  // PE32
    case 0x91 => 0x04                    // size of image
    case 0xB4 => 0x01                    // one data directory
    case 0xB9 => 0x01                    // export directory RVA
    case 0xBC => 0x28                    // export directory size
    case _ => 0
  }

  /** One section, loaded where it is stored. */
  function SectionByte(at: nat): byte {
    match at
    case 0xC8 => 0x6A                    // virtual size
    case 0xCD => 0x01                    // virtual address
    case 0xD0 => 0x6A                    // raw size
    case 0xD5 => 0x01                    // raw pointer
    case _ => 0
  }

  function HeaderByte(at: nat): byte {
    if at < PE_HEADER then DosByte(at)
    else if at < 0x58 then CoffByte(at)
    else if at < 0xC0 then OptionalByte(at)
    else SectionByte(at)
  }

  function DirectoryByte(at: nat): byte {
    match at
    case 20 => 3 case 24 => 3
    case 28 => 0x28 case 29 => 0x01
    case 32 => 0x34 case 33 => 0x01
    case 36 => 0x40 case 37 => 0x01
    case _ => 0
  }

  /** Three functions: the first and third entries choose theirs. */
  function FunctionByte(first: byte, third: byte, at: nat): byte {
    match at
    case 0 => first case 1 => 2
    case 5 => 3
    case 8 => third case 9 => 2
    case _ => 0
  }

  /** Initialize, shutdown, and initialize again. */
  function NameTableByte(at: nat): byte {
    match at
    case 0 => 0x46 case 4 => 0x57 case 8 => 0x46
    case 1 => 1 case 5 => 1 case 9 => 1
    case _ => 0
  }

  function OrdinalByte(at: nat): byte {
    match at
    case 2 => 1 case 4 => 2
    case _ => 0
  }

  function ByteAt(first: byte, third: byte, at: nat): byte
    requires at < FILE_SIZE
  {
    if at < DIRECTORY then HeaderByte(at)
    else if at < FUNCTIONS then DirectoryByte(at - DIRECTORY)
    else if at < NAMES then FunctionByte(first, third, at - FUNCTIONS)
    else if at < ORDINALS then NameTableByte(at - NAMES)
    else if at < INITIALIZE_NAME then OrdinalByte(at - ORDINALS)
    else if at < SHUTDOWN_NAME then INITIALIZE_EXPORT[at - INITIALIZE_NAME]
    else if at < VARIABLE then SHUTDOWN_EXPORT[at - SHUTDOWN_NAME]
    else 1
  }

  function File(first: byte, third: byte): (image: seq<byte>)
    ensures |image| == FILE_SIZE
  {
    seq(FILE_SIZE, at requires 0 <= at < FILE_SIZE => ByteAt(first, third, at))
  }

  function FlatMemory(image: seq<byte>): Memory {
    (at: nat) => if at < |image| then image[at] else 0
  }

  function FlatReader(image: seq<byte>): Mapped.Reader {
    (rva: u32, size: nat) => if rva + size <= |image| then Ok(image[rva..rva + size]) else Err(ReadFailed)
  }

  // ----- the running library -----

  /** The image base in the optional header, and the variable. */
  predicate MayChange(at: int) {
    0x74 <= at < 0x78 || VARIABLE <= at < FILE_SIZE
  }

  ghost function Changed(): Rewritten {
    iset at: int | MayChange(at)
  }

  /** The image after those have been written to. */
  function Live(image: seq<byte>, writes: nat -> byte): (live: seq<byte>)
    ensures |live| == |image|
    ensures forall at :: 0 <= at < |live| ==> live[at] == if MayChange(at) then writes(at) else image[at]
  {
    seq(|image|, at requires 0 <= at < |image| => if MayChange(at) then writes(at) else image[at])
  }

  predicate Stores16(bytes: seq<byte>, at: nat, b0: byte, b1: byte) {
    at + 2 <= |bytes| && bytes[at] == b0 && bytes[at + 1] == b1
  }

  predicate Stores32(bytes: seq<byte>, at: nat, b0: byte, b1: byte, b2: byte, b3: byte) {
    Stores16(bytes, at, b0, b1) && Stores16(bytes, at + 2, b2, b3)
  }

  lemma SliceStores16(image: seq<byte>, start: nat, end: nat, at: nat, b0: byte, b1: byte)
    requires start + at + 2 <= end <= |image|
    ensures Stores16(image[start..end], at, b0, b1) == Stores16(image, start + at, b0, b1)
  {
  }

  lemma SliceStores32(image: seq<byte>, start: nat, end: nat, at: nat, b0: byte, b1: byte, b2: byte, b3: byte)
    requires start + at + 4 <= end <= |image|
    ensures Stores32(image[start..end], at, b0, b1, b2, b3) == Stores32(image, start + at, b0, b1, b2, b3)
  {
  }

  // ----- the headers -----

  /** The bytes of the file that decide how its headers parse. */
  predicate HasHeaders(image: seq<byte>) {
    && |image| == FILE_SIZE
    && Stores16(image, 0, 0x4D, 0x5A) && Stores32(image, 0x3C, PE_HEADER, 0, 0, 0)
    && Stores32(image, 0x40, 0x50, 0x45, 0, 0)
    && Stores16(image, 0x44, 0x4C, 0x01) && Stores16(image, 0x46, 1, 0)
    && Stores32(image, 0x48, 0, 0, 0, 0)
    && Stores16(image, 0x54, 104, 0) && Stores16(image, 0x56, 0, 0x20)
  }

  predicate HasOptionalHeader(image: seq<byte>) {
    && |image| == FILE_SIZE
    && Stores16(image, 0x58, 0x0B, 0x01)
    && Stores32(image, 0x58 + SIZE_OF_IMAGE_OFFSET, 0, 4, 0, 0)
    && Stores32(image, 0x58 + NUMBER_OF_DATA_DIRECTORIES_OFFSET, 1, 0, 0, 0)
    && Stores32(image, 0x58 + EXPORT_DIRECTORY_RVA_OFFSET, 0, 1, 0, 0)
    && Stores32(image, 0x58 + EXPORT_DIRECTORY_SIZE_OFFSET, 40, 0, 0, 0)
  }

  predicate HasSection(image: seq<byte>) {
    && |image| == FILE_SIZE
    && Stores32(image, 0xC0 + 8, 0x6A, 0, 0, 0) && Stores32(image, 0xC0 + 12, 0, 1, 0, 0)
    && Stores32(image, 0xC0 + 16, 0x6A, 0, 0, 0) && Stores32(image, 0xC0 + 20, 0, 1, 0, 0)
  }

  lemma FileHasHeaders(first: byte, third: byte)
    ensures HasHeaders(File(first, third))
  {
  }

  lemma FileHasOptionalHeader(first: byte, third: byte)
    ensures HasOptionalHeader(File(first, third))
  {
  }

  lemma FileHasSection(first: byte, third: byte)
    ensures HasSection(File(first, third))
  {
  }

  function DiskHeaders(image: seq<byte>): Disk.Headers
    requires |image| == FILE_SIZE
  {
    Disk.Headers(image[0xC0..0xE8], DIRECTORY, EXPORT_DIRECTORY_HEADER_SIZE, 0, IMAGE_SIZE)
  }

  lemma DiskParsesOptional(image: seq<byte>)
    requires HasHeaders(image) && HasOptionalHeader(image)
    ensures Disk.ParseOptionalHeader(image, 0x44, 0) == Ok(DiskHeaders(image))
  {
    OptionalSlice(image);
    DiskReadsOptional(image, image[0x58..0xC0]);
  }

  lemma DiskReadsOptional(image: seq<byte>, optional: seq<byte>)
    requires |image| == FILE_SIZE && Stores16(image, 0x46, 1, 0) && Stores16(image, 0x54, 104, 0)
    requires optional == image[0x58..0xC0] && Stores16(optional, 0, 0x0B, 0x01)
    requires Stores32(optional, SIZE_OF_IMAGE_OFFSET, 0, 4, 0, 0)
    requires Stores32(optional, NUMBER_OF_DATA_DIRECTORIES_OFFSET, 1, 0, 0, 0)
    requires Stores32(optional, EXPORT_DIRECTORY_RVA_OFFSET, 0, 1, 0, 0)
    requires Stores32(optional, EXPORT_DIRECTORY_SIZE_OFFSET, 40, 0, 0, 0)
    ensures Disk.ParseOptionalHeader(image, 0x44, 0) == Ok(DiskHeaders(image))
  {
  }

  lemma DiskParses(image: seq<byte>)
    requires HasHeaders(image) && HasOptionalHeader(image)
    ensures Disk.ParseHeaders(image) == Ok(DiskHeaders(image))
  {
    DiskReadsCoff(image);
    DiskParsesOptional(image);
  }

  lemma DiskReadsCoff(image: seq<byte>)
    requires HasHeaders(image)
    ensures Disk.ParseHeaders(image) == Disk.ParseOptionalHeader(image, 0x44, 0)
  {
    assert image[0..2] == [0x4D, 0x5A];
    PeOffsetIs(image);
    assert image[0x40..0x44] == [0x50, 0x45, 0, 0];
    assert U16At(image, 0x44) == Ok(PE_MACHINE_I386);
    assert U32At(image, 0x48) == Ok(0);
    assert U16At(image, 0x56) == Ok(PE_CHARACTERISTIC_DLL);
  }

  lemma PeOffsetIs(image: seq<byte>)
    requires HasHeaders(image)
    ensures Word32(image, 0x3C) == PE_HEADER && Word16(image, PE_HEADER + 20) == 104
  {
  }

  /** The optional header as a slice of its own. */
  lemma OptionalSlice(image: seq<byte>)
    requires HasOptionalHeader(image)
    ensures Stores16(image[0x58..0xC0], 0, 0x0B, 0x01)
    ensures Stores32(image[0x58..0xC0], SIZE_OF_IMAGE_OFFSET, 0, 4, 0, 0)
    ensures Stores32(image[0x58..0xC0], NUMBER_OF_DATA_DIRECTORIES_OFFSET, 1, 0, 0, 0)
    ensures Stores32(image[0x58..0xC0], EXPORT_DIRECTORY_RVA_OFFSET, 0, 1, 0, 0)
    ensures Stores32(image[0x58..0xC0], EXPORT_DIRECTORY_SIZE_OFFSET, 40, 0, 0, 0)
  {
    SliceStores16(image, 0x58, 0xC0, 0, 0x0B, 0x01);
    SliceStores32(image, 0x58, 0xC0, SIZE_OF_IMAGE_OFFSET, 0, 4, 0, 0);
    SliceStores32(image, 0x58, 0xC0, NUMBER_OF_DATA_DIRECTORIES_OFFSET, 1, 0, 0, 0);
    SliceStores32(image, 0x58, 0xC0, EXPORT_DIRECTORY_RVA_OFFSET, 0, 1, 0, 0);
    SliceStores32(image, 0x58, 0xC0, EXPORT_DIRECTORY_SIZE_OFFSET, 40, 0, 0, 0);
  }

  lemma CoffSlice(image: seq<byte>)
    requires HasHeaders(image)
    ensures image[0x40..0x58][0..4] == [0x50, 0x45, 0, 0]
    ensures Stores16(image[0x40..0x58], 4, 0x4C, 0x01) && Stores32(image[0x40..0x58], 8, 0, 0, 0, 0)
    ensures Stores16(image[0x40..0x58], 20, 104, 0) && Stores16(image[0x40..0x58], 22, 0, 0x20)
  {
    SliceStores32(image, 0x40, 0x58, 0, 0x50, 0x45, 0, 0);
    SliceStores16(image, 0x40, 0x58, 4, 0x4C, 0x01);
    SliceStores32(image, 0x40, 0x58, 8, 0, 0, 0, 0);
    SliceStores16(image, 0x40, 0x58, 20, 104, 0);
    SliceStores16(image, 0x40, 0x58, 22, 0, 0x20);
  }

  const MAPPED_HEADERS := Mapped.Headers(DIRECTORY, DIRECTORY + EXPORT_DIRECTORY_HEADER_SIZE, 0, IMAGE_SIZE)

  lemma MappedParsesOptional(image: seq<byte>)
    requires HasOptionalHeader(image)
    ensures Mapped.ReadOptionalHeader(FlatReader(image), PE_HEADER, 0, 104) == Ok(MAPPED_HEADERS)
  {
    OptionalSlice(image);
  }

  lemma MappedPeOffset(image: seq<byte>)
    requires HasHeaders(image)
    ensures Mapped.ReadPeOffset(FlatReader(image)) == Ok(PE_HEADER)
  {
    SliceStores16(image, 0, 0x40, 0, 0x4D, 0x5A);
    SliceStores32(image, 0, 0x40, 0x3C, PE_HEADER, 0, 0, 0);
  }

  lemma MappedCoffHeader(read: Mapped.Reader, coff: seq<byte>)
    requires Mapped.ReadPeOffset(read) == Ok(PE_HEADER) && read(PE_HEADER, 24) == Ok(coff) && |coff| == 24
    requires coff[0..4] == [0x50, 0x45, 0, 0] && Stores16(coff, 4, 0x4C, 0x01) && Stores32(coff, 8, 0, 0, 0, 0)
    requires Stores16(coff, 20, 104, 0) && Stores16(coff, 22, 0, 0x20)
    ensures Mapped.ReadHeaders(read) == Mapped.ReadOptionalHeader(read, PE_HEADER, 0, 104)
  {
    assert IsDll(Word16(coff, 22));
  }

  lemma MappedParses(image: seq<byte>)
    requires HasHeaders(image) && HasOptionalHeader(image)
    ensures Mapped.ReadHeaders(FlatReader(image)) == Ok(MAPPED_HEADERS)
  {
    MappedPeOffset(image);
    CoffSlice(image);
    MappedCoffHeader(FlatReader(image), image[0x40..0x58]);
    MappedParsesOptional(image);
  }

  // ----- the section -----

  /** A parser that reads the section's bytes as the file has them. */
  ghost predicate ReadsSection(range: Range, image: seq<byte>) {
    forall rva: u32, size: u32 :: DIRECTORY <= rva && rva + size <= |image| ==>
      range(rva, size) == Ok(image[rva..rva + size])
  }

  lemma DiskReadsSection(image: seq<byte>)
    requires HasSection(image)
    ensures ReadsSection(Disk.Ranges(image, DiskHeaders(image).sectionTable), image)
  {
    var table := DiskHeaders(image).sectionTable;
    assert Disk.SectionAt(table, 0) == table;
    forall rva: u32, size: u32 | DIRECTORY <= rva && rva + size <= |image|
      ensures Disk.ReadRange(image, table, rva, size) == Ok(image[rva..rva + size])
    {
      assert Disk.TranslateIn(image, table, rva, size) == Some(Ok(rva));
      assert Disk.Translate(image, table, rva, size) == Ok(rva);
    }
  }

  lemma MappedReadsSection(image: seq<byte>)
    requires |image| == FILE_SIZE
    ensures ReadsSection(Mapped.Ranges(FlatReader(image), IMAGE_SIZE), image)
  {
  }

  // ----- the export tables -----

  predicate HasDirectory(image: seq<byte>) {
    && |image| == FILE_SIZE
    && Stores32(image, DIRECTORY + 20, 3, 0, 0, 0) && Stores32(image, DIRECTORY + 24, 3, 0, 0, 0)
    && Stores32(image, DIRECTORY + 28, 0x28, 1, 0, 0) && Stores32(image, DIRECTORY + 32, 0x34, 1, 0, 0)
    && Stores32(image, DIRECTORY + 36, 0x40, 1, 0, 0)
  }

  predicate HasTables(image: seq<byte>, first: byte, third: byte) {
    && |image| == FILE_SIZE
    && Stores32(image, FUNCTIONS, first, 2, 0, 0) && Stores32(image, FUNCTIONS + 4, 0, 3, 0, 0)
    && Stores32(image, FUNCTIONS + 8, third, 2, 0, 0)
    && Stores32(image, NAMES, 0x46, 1, 0, 0) && Stores32(image, NAMES + 4, 0x57, 1, 0, 0)
    && Stores32(image, NAMES + 8, 0x46, 1, 0, 0)
    && Stores16(image, ORDINALS, 0, 0) && Stores16(image, ORDINALS + 2, 1, 0) && Stores16(image, ORDINALS + 4, 2, 0)
  }

  ghost predicate HasNames(image: seq<byte>) {
    && |image| == FILE_SIZE
    && (forall k: nat :: k < |INITIALIZE_EXPORT| ==> image[INITIALIZE_NAME + k] == INITIALIZE_EXPORT[k])
    && (forall k: nat :: k < |SHUTDOWN_EXPORT| ==> image[SHUTDOWN_NAME + k] == SHUTDOWN_EXPORT[k])
  }

  lemma FileHasDirectory(first: byte, third: byte)
    ensures HasDirectory(File(first, third))
  {
  }

  lemma FileHasTables(first: byte, third: byte)
    ensures HasTables(File(first, third), first, third)
  {
  }

  lemma FileHasNames(first: byte, third: byte)
    ensures HasNames(File(first, third))
  {
  }

  function ExampleTables(image: seq<byte>): (tables: Tables)
    requires |image| == FILE_SIZE
    ensures WellSized(tables)
  {
    Tables(3, 3, image[FUNCTIONS..NAMES], image[NAMES..ORDINALS], image[ORDINALS..INITIALIZE_NAME],
           DIRECTORY, DIRECTORY + EXPORT_DIRECTORY_HEADER_SIZE)
  }

  lemma DirectoryIs(image: seq<byte>)
    requires HasDirectory(image)
    ensures DirectoryOf(image[DIRECTORY..FUNCTIONS]) == Directory(3, 3, FUNCTIONS, NAMES, ORDINALS)
  {
    SliceStores32(image, DIRECTORY, FUNCTIONS, 20, 3, 0, 0, 0);
    SliceStores32(image, DIRECTORY, FUNCTIONS, 24, 3, 0, 0, 0);
    SliceStores32(image, DIRECTORY, FUNCTIONS, 28, 0x28, 1, 0, 0);
    SliceStores32(image, DIRECTORY, FUNCTIONS, 32, 0x34, 1, 0, 0);
    SliceStores32(image, DIRECTORY, FUNCTIONS, 36, 0x40, 1, 0, 0);
  }

  lemma BothReadTheTables(image: seq<byte>, range: Range)
    requires HasDirectory(image) && Exact(range) && ReadsSection(range, image)
    ensures Disk.ReadTables(range, DiskHeaders(image)) == Ok(ExampleTables(image))
    ensures Mapped.ReadTables(range, MAPPED_HEADERS) == Ok(ExampleTables(image))
  {
    DirectoryIs(image);
  }

  lemma NameIsRead(image: seq<byte>, range: Range, rva: u32, name: seq<byte>)
    requires Exact(range) && ReadsSection(range, image)
    requires DIRECTORY <= rva && rva + |name| <= |image| <= U32_MAX && 0 < |name| <= MAX_EXPORT_NAME_SIZE
    requires forall k: nat :: k < |name| ==> image[rva + k] == name[k]
    requires forall k: nat :: k < |name| ==> (name[k] == 0 <==> k == |name| - 1)
    ensures NameFrom(FetchOf(range), rva, 0) == Ok(name)
  {
    forall k: nat | k < |name|
      ensures FetchOf(range)(rva + k) == Ok(name[k])
    {
      assert range(rva + k, 1) == Ok(image[rva + k..rva + k + 1]);
    }
    StoredIsRead(FetchOf(range), rva, name);
  }

  lemma NamesEndInNul()
    ensures |INITIALIZE_EXPORT| == 17 && |SHUTDOWN_EXPORT| == 15 && INITIALIZE_EXPORT != SHUTDOWN_EXPORT
    ensures forall k: nat :: k < 17 ==> (INITIALIZE_EXPORT[k] == 0 <==> k == 16)
    ensures forall k: nat :: k < 15 ==> (SHUTDOWN_EXPORT[k] == 0 <==> k == 14)
  {
  }

  lemma NamesAreRead(image: seq<byte>, range: Range)
    requires HasNames(image) && Exact(range) && ReadsSection(range, image)
    ensures NameFrom(FetchOf(range), INITIALIZE_NAME, 0) == Ok(INITIALIZE_EXPORT)
    ensures NameFrom(FetchOf(range), SHUTDOWN_NAME, 0) == Ok(SHUTDOWN_EXPORT)
  {
    NamesEndInNul();
    NameIsRead(image, range, INITIALIZE_NAME, INITIALIZE_EXPORT);
    NameIsRead(image, range, SHUTDOWN_NAME, SHUTDOWN_EXPORT);
  }

  /** An entry with one of the two names, its function past the directory. */
  lemma EntryIs(tables: Tables, fetch: Fetch, limit: Option<u32>, index: nat, initialize: bool, rva: u32)
    requires WellSized(tables) && index < tables.nameCount
    requires ExportName(tables, fetch, index) == Ok(if initialize then INITIALIZE_EXPORT else SHUTDOWN_EXPORT)
    requires var ordinal := Word16(tables.ordinals, index * 2);
             ordinal < tables.functionCount && Word32(tables.functions, ordinal * 4) == rva
    requires tables.directoryEnd <= rva && 0 < rva && (limit.Some? ==> rva < limit.value)
    ensures EntryAt(tables, fetch, limit, index) == Ok(if initialize then Initialize(rva) else Shutdown(rva))
  {
    NamesEndInNul();
  }

  lemma TableSlices(image: seq<byte>, first: byte, third: byte)
    requires HasTables(image, first, third)
    ensures Stores32(image[NAMES..ORDINALS], 0, 0x46, 1, 0, 0) && Stores32(image[NAMES..ORDINALS], 4, 0x57, 1, 0, 0)
    ensures Stores32(image[NAMES..ORDINALS], 8, 0x46, 1, 0, 0)
    ensures Stores16(image[ORDINALS..INITIALIZE_NAME], 0, 0, 0) && Stores16(image[ORDINALS..INITIALIZE_NAME], 2, 1, 0)
    ensures Stores16(image[ORDINALS..INITIALIZE_NAME], 4, 2, 0)
    ensures Stores32(image[FUNCTIONS..NAMES], 0, first, 2, 0, 0) && Stores32(image[FUNCTIONS..NAMES], 4, 0, 3, 0, 0)
    ensures Stores32(image[FUNCTIONS..NAMES], 8, third, 2, 0, 0)
  {
  }

  /** The tables' words, entry by entry. */
  lemma EntryWords(image: seq<byte>, first: byte, third: byte, index: nat)
    requires HasTables(image, first, third) && index < 3
    ensures var tables := ExampleTables(image);
            && Word32(tables.names, index * 4) == (if index == 1 then SHUTDOWN_NAME else INITIALIZE_NAME)
            && Word16(tables.ordinals, index * 2) == index
            && Word32(tables.functions, index * 4) ==
               (if index == 0 then 0x200 + first else if index == 1 then 0x300 else 0x200 + third)
  {
    TableSlices(image, first, third);
    if index == 0 {
    } else if index == 1 {
    } else {
      assert index == 2;
    }
  }

  lemma EntryAtIndex(image: seq<byte>, first: byte, third: byte, range: Range, limit: Option<u32>,
                     index: nat, initialize: bool, rva: u32)
    requires HasTables(image, first, third) && Exact(range) && index < 3
    requires NameFrom(FetchOf(range), INITIALIZE_NAME, 0) == Ok(INITIALIZE_EXPORT)
    requires NameFrom(FetchOf(range), SHUTDOWN_NAME, 0) == Ok(SHUTDOWN_EXPORT)
    requires limit.Some? ==> limit.value == IMAGE_SIZE
    requires initialize == (index != 1)
    requires rva == if index == 0 then 0x200 + first else if index == 1 then 0x300 else 0x200 + third
    ensures EntriesOf(ExampleTables(image), FetchOf(range), limit)(index) ==
            Ok(if initialize then Initialize(rva) else Shutdown(rva))
  {
    EntryWords(image, first, third, index);
    EntryIs(ExampleTables(image), FetchOf(range), limit, index, initialize, rva);
  }

  lemma EntriesAre(image: seq<byte>, first: byte, third: byte, range: Range, limit: Option<u32>)
    requires HasTables(image, first, third) && HasNames(image) && Exact(range) && ReadsSection(range, image)
    requires limit.Some? ==> limit.value == IMAGE_SIZE
    ensures var entries := EntriesOf(ExampleTables(image), FetchOf(range), limit);
            && entries(0) == Ok(Initialize(0x200 + first))
            && entries(1) == Ok(Shutdown(0x300))
            && entries(2) == Ok(Initialize(0x200 + third))
  {
    NamesAreRead(image, range);
    EntryAtIndex(image, first, third, range, limit, 0, true, 0x200 + first);
    EntryAtIndex(image, first, third, range, limit, 1, false, 0x300);
    EntryAtIndex(image, first, third, range, limit, 2, true, 0x200 + third);
  }

  /** Over initialize, shutdown, initialize the file parser takes the last and the
      mapped one the first. */
  lemma ScansDiffer(entries: Entries, first: u32, second: u32, third: u32)
    requires entries(0) == Ok(Initialize(first))
    requires entries(1) == Ok(Shutdown(second))
    requires entries(2) == Ok(Initialize(third))
    ensures Scan(entries, 3, false, 0, NOTHING_PICKED) == Ok(Picked(Some(third), Some(second)))
    ensures Scan(entries, 3, true, 0, NOTHING_PICKED) == Ok(Picked(Some(first), Some(second)))
  {
    assert Scan(entries, 3, false, 2, Picked(Some(first), Some(second))) == Ok(Picked(Some(third), Some(second)));
  }

  // ----- what the parsers report -----

  ghost predicate IsExample(image: seq<byte>, first: byte, third: byte) {
    && HasHeaders(image) && HasOptionalHeader(image) && HasSection(image)
    && HasDirectory(image) && HasTables(image, first, third) && HasNames(image)
  }

  lemma DiskExports(image: seq<byte>, first: byte, third: byte)
    requires HasSection(image) && HasDirectory(image) && HasTables(image, first, third) && HasNames(image)
    ensures Disk.Exports(image, DiskHeaders(image)) == Ok(Identity(0x200 + third, 0x300, 0, IMAGE_SIZE))
  {
    var range := Disk.Ranges(image, DiskHeaders(image).sectionTable);
    DiskReadsSection(image);
    BothReadTheTables(image, range);
    EntriesAre(image, first, third, range, None);
    ScansDiffer(EntriesOf(ExampleTables(image), FetchOf(range), None), 0x200 + first, 0x300, 0x200 + third);
  }

  lemma MappedExports(image: seq<byte>, first: byte, third: byte)
    requires HasDirectory(image) && HasTables(image, first, third) && HasNames(image)
    ensures Mapped.Exports(FlatReader(image), MAPPED_HEADERS) == Ok(Identity(0x200 + first, 0x300, 0, IMAGE_SIZE))
  {
    var range := Mapped.Ranges(FlatReader(image), IMAGE_SIZE);
    MappedReadsSection(image);
    BothReadTheTables(image, range);
    EntriesAre(image, first, third, range, Some(IMAGE_SIZE));
    ScansDiffer(EntriesOf(ExampleTables(image), FetchOf(range), Some(IMAGE_SIZE)), 0x200 + first, 0x300, 0x200 + third);
  }

  lemma LiveHasHeaders(image: seq<byte>, writes: nat -> byte)
    requires HasHeaders(image) && HasOptionalHeader(image)
    ensures HasHeaders(Live(image, writes)) && HasOptionalHeader(Live(image, writes))
  {
  }

  lemma LiveHasExports(image: seq<byte>, writes: nat -> byte, first: byte, third: byte)
    requires HasDirectory(image) && HasTables(image, first, third) && HasNames(image)
    ensures HasDirectory(Live(image, writes)) && HasTables(Live(image, writes), first, third) && HasNames(Live(image, writes))
  {
  }

  // ----- the loading -----

  lemma HoldsSlice(image: seq<byte>, writes: nat -> byte, start: nat, length: nat)
    requires start + length <= |image|
    ensures HoldsOutside(FlatMemory(Live(image, writes)), Changed(), start, image[start..start + length])
  {
  }

  lemma HoldsHead(image: seq<byte>, writes: nat -> byte, length: nat)
    requires length <= |image|
    ensures HoldsOutside(FlatMemory(Live(image, writes)), Changed(), 0, image[..length])
  {
  }

  lemma LiveSection(image: seq<byte>, writes: nat -> byte)
    requires HasSection(image)
    ensures SectionsHeld(image, DiskHeaders(image).sectionTable, FlatMemory(Live(image, writes)), Changed())
  {
    var section := image[0xC0..0xE8];
    assert Disk.SectionCount(section) == 1;
    assert Disk.SectionAt(section, 0) == section;
    HoldsSlice(image, writes, DIRECTORY, |RawBytes(image, section)|);
  }

  lemma LiveHeaders(image: seq<byte>, writes: nat -> byte)
    requires HasHeaders(image) && Disk.ParseHeaders(image).Ok?
    ensures HeadersHeld(image, FlatMemory(Live(image, writes)), Changed())
  {
    PeOffsetIs(image);
    HoldsHead(image, writes, 0xC0);
  }

  lemma LiveLoading(image: seq<byte>, writes: nat -> byte)
    requires HasHeaders(image) && HasOptionalHeader(image) && HasSection(image)
    ensures Loaded(image, FlatMemory(Live(image, writes)), Changed())
  {
    DiskParses(image);
    LiveHeaders(image, writes);
    LiveSection(image, writes);
  }

  lemma BeyondTheHeaders(start: int, size: nat)
    requires 0x78 <= start && start + size <= VARIABLE
    ensures Kept(Changed(), start, size)
  {
  }

  lemma LiveKeepsHeaderFields(image: seq<byte>)
    requires HasHeaders(image) && Disk.ParseHeaders(image).Ok?
    ensures HeaderFieldsKept(image, Changed())
  {
    PeOffsetIs(image);
    BeyondTheHeaders(PE_HEADER + 24 + SIZE_OF_IMAGE_OFFSET, 4);
    BeyondTheHeaders(PE_HEADER + 24 + EXPORT_DIRECTORY_RVA_OFFSET, 4);
    BeyondTheHeaders(PE_HEADER + 24 + EXPORT_DIRECTORY_SIZE_OFFSET, 4);
  }

  lemma LiveKeepsTables(image: seq<byte>, range: Range)
    requires HasDirectory(image) && Exact(range) && ReadsSection(range, image)
    ensures TablesKept(range, DiskHeaders(image), Changed())
  {
    DirectoryIs(image);
    BeyondTheHeaders(DIRECTORY + 20, 20);
    BeyondTheHeaders(FUNCTIONS, 12);
    BeyondTheHeaders(NAMES, 12);
    BeyondTheHeaders(ORDINALS, 6);
  }

  lemma LiveKeepsNames(image: seq<byte>, first: byte, third: byte, range: Range)
    requires HasTables(image, first, third) && HasNames(image) && Exact(range) && ReadsSection(range, image)
    ensures NamesKept(ExampleTables(image), FetchOf(range), Changed())
  {
    NamesAreRead(image, range);
    NamesEndInNul();
    BeyondTheHeaders(INITIALIZE_NAME, 17);
    BeyondTheHeaders(SHUTDOWN_NAME, 15);
    forall index: nat | index < 3
      ensures Word32(ExampleTables(image).names, index * 4) == if index == 1 then SHUTDOWN_NAME else INITIALIZE_NAME
    {
      EntryWords(image, first, third, index);
    }
  }

  lemma LiveKeepsIdentity(image: seq<byte>, first: byte, third: byte)
    requires IsExample(image, first, third) && Disk.ParseHeaders(image).Ok?
    ensures IdentityKept(image, Changed())
  {
    var range := Disk.Ranges(image, DiskHeaders(image).sectionTable);
    DiskParses(image);
    LiveKeepsHeaderFields(image);
    DiskReadsSection(image);
    LiveKeepsTables(image, range);
    BothReadTheTables(image, range);
    LiveKeepsNames(image, first, third, range);
  }

  lemma FlatReads(image: seq<byte>)
    ensures ReadsFrom(FlatReader(image), FlatMemory(image))
  {
  }

  lemma FileIsExample(first: byte, third: byte)
    ensures IsExample(File(first, third), first, third)
  {
    FileHasHeaders(first, third);
    FileHasOptionalHeader(first, third);
    FileHasSection(first, third);
    FileHasDirectory(first, third);
    FileHasTables(first, third);
    FileHasNames(first, third);
  }

  lemma ExampleFile(first: byte, third: byte) returns (image: seq<byte>)
    ensures IsExample(image, first, third)
  {
    image := File(first, third);
    FileIsExample(first, third);
  }

  /** A repeated name is a real difference: there are a file, a loading of it that has
      been written to since in its image base and its variable, and a reader of that
      memory, on which both parsers succeed; nothing the file parser takes its answer
      from is rewritten, and yet it reports the third entry as initialize and the
      mapped parser the first. */
  lemma RepeatedNamesDiffer(first: byte, third: byte, writes: nat -> byte)
    returns (image: seq<byte>, read: Mapped.Reader, memory: Memory)
    ensures Loaded(image, memory, Changed()) && IdentityKept(image, Changed()) && ReadsFrom(read, memory)
    ensures forall at: nat :: MayChange(at) ==> memory(at) == writes(at)
    ensures Disk.DiskIdentity(image) == Ok(Identity(0x200 + third, 0x300, 0, IMAGE_SIZE))
    ensures Mapped.MappedIdentity(read) == Ok(Identity(0x200 + first, 0x300, 0, IMAGE_SIZE))
  {
    image := ExampleFile(first, third);
    DiskReports(image, first, third);
    read, memory := LiveReports(image, writes, first, third);
  }

  lemma DiskReports(image: seq<byte>, first: byte, third: byte)
    requires IsExample(image, first, third)
    ensures Disk.DiskIdentity(image) == Ok(Identity(0x200 + third, 0x300, 0, IMAGE_SIZE))
  {
    DiskParses(image);
    DiskExports(image, first, third);
  }

  lemma LiveReports(image: seq<byte>, writes: nat -> byte, first: byte, third: byte)
    returns (read: Mapped.Reader, memory: Memory)
    requires IsExample(image, first, third)
    ensures Loaded(image, memory, Changed()) && IdentityKept(image, Changed()) && ReadsFrom(read, memory)
    ensures forall at: nat :: MayChange(at) ==> memory(at) == writes(at)
    ensures Mapped.MappedIdentity(read) == Ok(Identity(0x200 + first, 0x300, 0, IMAGE_SIZE))
  {
    memory := LiveMemory(image, writes, first, third);
    read := LiveReader(image, writes, memory, first, third);
  }

  lemma LiveMemory(image: seq<byte>, writes: nat -> byte, first: byte, third: byte) returns (memory: Memory)
    requires IsExample(image, first, third)
    ensures Loaded(image, memory, Changed()) && IdentityKept(image, Changed())
    ensures memory == FlatMemory(Live(image, writes))
    ensures forall at: nat :: MayChange(at) ==> memory(at) == writes(at)
  {
    memory := FlatMemory(Live(image, writes));
    LiveLoading(image, writes);
    LiveKeepsIdentity(image, first, third);
  }

  lemma LiveReader(image: seq<byte>, writes: nat -> byte, memory: Memory, first: byte, third: byte) returns (read: Mapped.Reader)
    requires IsExample(image, first, third) && memory == FlatMemory(Live(image, writes))
    ensures ReadsFrom(read, memory)
    ensures Mapped.MappedIdentity(read) == Ok(Identity(0x200 + first, 0x300, 0, IMAGE_SIZE))
  {
    var live := Live(image, writes);
    read := FlatReader(live);
    FlatReads(live);
    LiveHasHeaders(image, writes);
    LiveHasExports(image, writes, first, third);
    MappedParses(live);
    MappedExports(live, first, third);
  }
}
