/** Bounded little-endian reads and the layout constants of the PE32 export walk
    (Microsoft's PE Format, "Section Table (Section Headers)" and "The .edata
    Section (Image Only)"). */
module PeFormat {
  import opened Words
  import opened Wrappers

  const USIZE_MAX := 0xFFFF_FFFF  // the loader is a 32-bit program
  const MAX_DLL_SIZE := 64 * 1024 * 1024
  const MAX_EXPORT_NAME_SIZE := 256
  const MAX_PE_HEADER_OFFSET := 1024 * 1024
  const MAX_OPTIONAL_HEADER_SIZE := 4096
  const MAX_EXPORT_ENTRIES := 4096

  const PE_MACHINE_I386: u16 := 0x014C
  const PE_CHARACTERISTIC_DLL: u16 := 0x2000
  const PE32_MAGIC: u16 := 0x010B
  const COFF_HEADER_SIZE := 20
  const MIN_PE32_OPTIONAL_HEADER_SIZE := 104
  const SIZE_OF_IMAGE_OFFSET := 56
  const NUMBER_OF_DATA_DIRECTORIES_OFFSET := 92
  const EXPORT_DIRECTORY_RVA_OFFSET := 96
  const EXPORT_DIRECTORY_SIZE_OFFSET := 100
  const EXPORT_DIRECTORY_HEADER_SIZE := 40
  const SECTION_HEADER_SIZE := 40

  const INITIALIZE_EXPORT: seq<byte> :=
    [0x64, 0x61, 0x72, 0x70, 0x63, 0x5F, 0x69, 0x6E, 0x69, 0x74, 0x69, 0x61, 0x6C, 0x69, 0x7A, 0x65, 0]
  const SHUTDOWN_EXPORT: seq<byte> :=
    [0x64, 0x61, 0x72, 0x70, 0x63, 0x5F, 0x73, 0x68, 0x75, 0x74, 0x64, 0x6F, 0x77, 0x6E, 0]

  datatype PeError =
    | Overflow | Outside | BadSignature | WrongMachine | NotDll | NoSections | BadOptionalHeader | NotPe32
    | BadImageSize | NoExportDirectory | NoNamedExports | TooManyExports | Unmapped | NotBacked | NameTooLong
    | BadOrdinal | BadFunction | Forwarded | MissingExport | HeaderTooFar | ShortRead | ReadFailed

  type Outcome<T> = Result<T, PeError>

  datatype Identity = Identity(initializeRva: u32, shutdownRva: u32, timestamp: u32, sizeOfImage: u32)

  function CheckedOffset(base: nat, delta: nat): Outcome<nat> {
    if base + delta > USIZE_MAX then Err(Overflow) else Ok(base + delta)
  }

  function SliceAt(image: seq<byte>, offset: nat, length: nat): (r: Outcome<seq<byte>>)
    ensures r.Ok? ==> offset + length <= |image| && r.value == image[offset..offset + length]
    ensures offset + length <= |image| <= USIZE_MAX ==> r.Ok?
  {
    var end :- CheckedOffset(offset, length);
    if end > |image| then Err(Outside) else Ok(image[offset..end])
  }

  function Word16(bytes: seq<byte>, offset: nat): u16
    requires offset + 2 <= |bytes|
  {
    LittleEndian16(bytes[offset], bytes[offset + 1])
  }

  function Word32(bytes: seq<byte>, offset: nat): u32
    requires offset + 4 <= |bytes|
  {
    LittleEndian32(bytes[offset], bytes[offset + 1], bytes[offset + 2], bytes[offset + 3])
  }

  function U16At(image: seq<byte>, offset: nat): (r: Outcome<u16>)
    ensures r.Ok? ==> offset + 2 <= |image| && r.value == Word16(image, offset)
    ensures offset + 2 <= |image| <= USIZE_MAX ==> r.Ok?
  {
    var bytes :- SliceAt(image, offset, 2);
    Ok(LittleEndian16(bytes[0], bytes[1]))
  }

  function U32At(image: seq<byte>, offset: nat): (r: Outcome<u32>)
    ensures r.Ok? ==> offset + 4 <= |image| && r.value == Word32(image, offset)
    ensures offset + 4 <= |image| <= USIZE_MAX ==> r.Ok?
  {
    var bytes :- SliceAt(image, offset, 4);
    Ok(LittleEndian32(bytes[0], bytes[1], bytes[2], bytes[3]))
  }

  /** The flag test `characteristics & PE_CHARACTERISTIC_DLL != 0`. */
  predicate IsDll(characteristics: u16) {
    characteristics / PE_CHARACTERISTIC_DLL % 2 == 1
  }

  // ----- the export walk both parsers perform -----

  /** The three export tables, and the directory's own RVA range. */
  datatype Tables = Tables(
    functionCount: u32, nameCount: u32,
    functions: seq<byte>, names: seq<byte>, ordinals: seq<byte>,
    directory: u32, directoryEnd: u32)

  /** The fields of the export directory that the walk uses. */
  datatype Directory = Directory(functionCount: u32, nameCount: u32, functions: u32, names: u32, ordinals: u32)

  function DirectoryOf(bytes: seq<byte>): Directory
    requires |bytes| == EXPORT_DIRECTORY_HEADER_SIZE
  {
    Directory(Word32(bytes, 20), Word32(bytes, 24), Word32(bytes, 28), Word32(bytes, 32), Word32(bytes, 36))
  }

  ghost predicate WellSized(tables: Tables) {
    && |tables.functions| == 4 * tables.functionCount
    && |tables.names| == 4 * tables.nameCount
    && |tables.ordinals| == 2 * tables.nameCount
  }

  /** How a parser reads a range of RVAs, and one byte of it. */
  type Range = (u32, u32) -> Outcome<seq<byte>>
  type Fetch = u32 -> Outcome<byte>

  ghost predicate Exact(range: Range) {
    forall rva: u32, size: u32 :: range(rva, size).Ok? ==> |range(rva, size).value| == size
  }

  function FetchOf(range: Range): Fetch
    requires Exact(range)
  {
    (rva: u32) =>
      match range(rva, 1)
      case Ok(bytes) => Ok(bytes[0])
      case Err(e) => Err(e)
  }

  /** An export name, its final NUL included, from `offset` on. */
  function NameFrom(fetch: Fetch, name: u32, offset: nat): (r: Outcome<seq<byte>>)
    requires offset <= MAX_EXPORT_NAME_SIZE
    ensures r.Ok? ==> 0 < |r.value| <= MAX_EXPORT_NAME_SIZE - offset && r.value[|r.value| - 1] == 0
    decreases MAX_EXPORT_NAME_SIZE - offset
  {
    if offset == MAX_EXPORT_NAME_SIZE then Err(NameTooLong)
    else if name + offset > U32_MAX then Err(Overflow)
    else
      var value :- fetch(name + offset);
      if value == 0 then Ok([0])
      else
        var rest :- NameFrom(fetch, name, offset + 1);
        Ok([value] + rest)
  }

  /** A name whose first part has been read already. */
  function Prefixed(name: seq<byte>, rest: Outcome<seq<byte>>): Outcome<seq<byte>> {
    match rest
    case Ok(tail) => Ok(name + tail)
    case Err(e) => Err(e)
  }

  lemma PrefixNothing(rest: Outcome<seq<byte>>)
    ensures Prefixed([], rest) == rest
  {
    if rest.Ok? {
      assert [] + rest.value == rest.value;
    }
  }

  lemma PrefixStep(fetch: Fetch, nameRva: u32, offset: nat, name: seq<byte>, value: byte)
    requires offset < MAX_EXPORT_NAME_SIZE && nameRva + offset <= U32_MAX
    requires fetch(nameRva + offset) == Ok(value) && value != 0
    ensures Prefixed(name, NameFrom(fetch, nameRva, offset)) ==
            Prefixed(name + [value], NameFrom(fetch, nameRva, offset + 1))
  {
    var rest := NameFrom(fetch, nameRva, offset + 1);
    if rest.Ok? {
      assert name + ([value] + rest.value) == name + [value] + rest.value;
    }
  }

  datatype Entry = Unrelated | Initialize(rva: u32) | Shutdown(rva: u32)

  function ExportName(tables: Tables, fetch: Fetch, index: nat): Outcome<seq<byte>>
    requires WellSized(tables) && index < tables.nameCount
  {
    NameFrom(fetch, Word32(tables.names, index * 4), 0)
  }

  /** function_table[ordinal_table[index]], with the checks both parsers make and
      the bound only one of them has. */
  function FunctionRva(tables: Tables, limit: Option<u32>, index: nat): (r: Outcome<u32>)
    requires WellSized(tables) && index < tables.nameCount
    ensures r.Ok? ==>
              && Word16(tables.ordinals, index * 2) < tables.functionCount
              && r.value == Word32(tables.functions, Word16(tables.ordinals, index * 2) * 4)
              && r.value != 0 && !(tables.directory <= r.value < tables.directoryEnd)
  {
    var ordinal := Word16(tables.ordinals, index * 2);
    if ordinal >= tables.functionCount then Err(BadOrdinal)
    else
      var rva := Word32(tables.functions, ordinal * 4);
      if rva == 0 || (limit.Some? && rva >= limit.value) then Err(BadFunction)
      else if tables.directory <= rva < tables.directoryEnd then Err(Forwarded)
      else Ok(rva)
  }

  /** What an export entry means for the lifecycle identity. */
  function EntryAt(tables: Tables, fetch: Fetch, limit: Option<u32>, index: nat): (r: Outcome<Entry>)
    requires WellSized(tables)
  {
    if index >= tables.nameCount then Ok(Unrelated)
    else
      var name :- ExportName(tables, fetch, index);
      if name == INITIALIZE_EXPORT then
        var rva :- FunctionRva(tables, limit, index);
        Ok(Initialize(rva))
      else if name == SHUTDOWN_EXPORT then
        var rva :- FunctionRva(tables, limit, index);
        Ok(Shutdown(rva))
      else Ok(Unrelated)
  }

  type Entries = nat -> Outcome<Entry>

  function EntriesOf(tables: Tables, fetch: Fetch, limit: Option<u32>): Entries
    requires WellSized(tables)
  {
    (index: nat) => EntryAt(tables, fetch, limit, index)
  }

  datatype Picked = Picked(initialize: Option<u32>, shutdown: Option<u32>)

  function Pick(picked: Picked, entry: Entry): Picked {
    match entry
    case Unrelated => picked
    case Initialize(rva) => picked.(initialize := Some(rva))
    case Shutdown(rva) => picked.(shutdown := Some(rva))
  }

  predicate Both(picked: Picked) {
    picked.initialize.Some? && picked.shutdown.Some?
  }

  /** The export loop from `index` on. With `early` it stops once both are found. */
  function Scan(entries: Entries, count: nat, early: bool, index: nat, picked: Picked): Outcome<Picked>
    requires index <= count
    decreases count - index
  {
    if index == count then Ok(picked)
    else
      var entry :- entries(index);
      var next := Pick(picked, entry);
      if early && entry != Unrelated && Both(next) then Ok(next)
      else Scan(entries, count, early, index + 1, next)
  }

  const NOTHING_PICKED := Picked(None, None)

  function Conclude(picked: Picked, timestamp: u32, sizeOfImage: u32): Outcome<Identity> {
    match (picked.initialize, picked.shutdown)
    case (Some(initialize), Some(shutdown)) => Ok(Identity(initialize, shutdown, timestamp, sizeOfImage))
    case _ => Err(MissingExport)
  }
}
