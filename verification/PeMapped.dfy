/** The export walk over a loaded image: every RVA is read from the process. */
module PeMapped {
  import opened Words
  import opened Wrappers
  import opened PeFormat

  /** Reading target memory: it may fail, and it may come back short. */
  type Reader = (u32, nat) -> Outcome<seq<byte>>

  function MappedRead(read: Reader, rva: u32, size: nat, sizeOfImage: Option<u32>): (r: Outcome<seq<byte>>)
    ensures r.Ok? ==> |r.value| == size && r == read(rva, size)
  {
    if size > U32_MAX || rva + size > U32_MAX then Err(Overflow)
    else if sizeOfImage.Some? && rva + size > sizeOfImage.value then Err(Outside)
    else
      var bytes :- read(rva, size);
      if |bytes| != size then Err(ShortRead) else Ok(bytes)
  }

  function Ranges(read: Reader, sizeOfImage: u32): (range: Range)
    ensures Exact(range)
  {
    (rva, size) => MappedRead(read, rva, size, Some(sizeOfImage))
  }

  function Fetcher(read: Reader, sizeOfImage: u32): Fetch {
    FetchOf(Ranges(read, sizeOfImage))
  }

  method MappedExportName(read: Reader, nameRva: u32, sizeOfImage: u32) returns (r: Outcome<seq<byte>>)
    ensures r == NameFrom(Fetcher(read, sizeOfImage), nameRva, 0)
  {
    ghost var fetch := Fetcher(read, sizeOfImage);
    var name: seq<byte> := [];
    PrefixNothing(NameFrom(fetch, nameRva, 0));
    for offset := 0 to MAX_EXPORT_NAME_SIZE
      invariant NameFrom(fetch, nameRva, 0) == Prefixed(name, NameFrom(fetch, nameRva, offset))
    {
      if nameRva + offset > U32_MAX {
        return Err(Overflow);
      }
      var bytes :- MappedRead(read, nameRva + offset, 1, Some(sizeOfImage));
      assert fetch(nameRva + offset) == Ok(bytes[0]);
      if bytes[0] != 0 {
        PrefixStep(fetch, nameRva, offset, name, bytes[0]);
      }
      name := name + [bytes[0]];
      if bytes[0] == 0 {
        return Ok(name);
      }
    }
    return Err(NameTooLong);
  }

  // ----- headers -----

  datatype Headers = Headers(exportDirectoryRva: u32, exportDirectoryEnd: u32, timestamp: u32, sizeOfImage: u32)

  function ReadPeOffset(read: Reader): (r: Outcome<u32>)
    ensures r.Ok? ==> r.value <= MAX_PE_HEADER_OFFSET
  {
    var dos :- MappedRead(read, 0, 0x40, None);
    if dos[0..2] != [0x4D, 0x5A] then Err(BadSignature)
    else if Word32(dos, 0x3C) > MAX_PE_HEADER_OFFSET then Err(HeaderTooFar)
    else Ok(Word32(dos, 0x3C))
  }

  function ReadHeaders(read: Reader): Outcome<Headers> {
    var pe :- ReadPeOffset(read);
    var header :- MappedRead(read, pe, 4 + COFF_HEADER_SIZE, None);
    if header[0..4] != [0x50, 0x45, 0, 0] then Err(BadSignature)
    else if Word16(header, 4) != PE_MACHINE_I386 then Err(WrongMachine)
    else if !IsDll(Word16(header, 22)) then Err(NotDll)
    else ReadOptionalHeader(read, pe, Word32(header, 8), Word16(header, 20))
  }

  function ReadOptionalHeader(read: Reader, pe: u32, timestamp: u32, optionalSize: u16): Outcome<Headers>
    requires pe <= MAX_PE_HEADER_OFFSET
  {
    if !(MIN_PE32_OPTIONAL_HEADER_SIZE <= optionalSize <= MAX_OPTIONAL_HEADER_SIZE) then Err(BadOptionalHeader)
    else
      var optional :- MappedRead(read, pe + 4 + COFF_HEADER_SIZE, optionalSize, None);
      if Word16(optional, 0) != PE32_MAGIC then Err(NotPe32)
      else
        var sizeOfImage := Word32(optional, SIZE_OF_IMAGE_OFFSET);
        if sizeOfImage == 0 || sizeOfImage > MAX_DLL_SIZE then Err(BadImageSize)
        else if Word32(optional, NUMBER_OF_DATA_DIRECTORIES_OFFSET) == 0 then Err(NoExportDirectory)
        else
          var rva := Word32(optional, EXPORT_DIRECTORY_RVA_OFFSET);
          var size := Word32(optional, EXPORT_DIRECTORY_SIZE_OFFSET);
          if rva == 0 || size < EXPORT_DIRECTORY_HEADER_SIZE then Err(NoExportDirectory)
          else if rva + size > U32_MAX then Err(Overflow)
          else if rva + size > sizeOfImage then Err(Outside)
          else Ok(Headers(rva, rva + size, timestamp, sizeOfImage))
  }

  // ----- the export directory -----

  function ReadDirectory(range: Range, headers: Headers): (r: Outcome<Directory>)
    requires Exact(range)
    ensures r.Ok? ==> r.value.functionCount <= MAX_EXPORT_ENTRIES && r.value.nameCount <= MAX_EXPORT_ENTRIES
  {
    var bytes :- range(headers.exportDirectoryRva, EXPORT_DIRECTORY_HEADER_SIZE);
    var directory := DirectoryOf(bytes);
    if directory.functionCount == 0 || directory.nameCount == 0 then Err(NoNamedExports)
    else if directory.functionCount > MAX_EXPORT_ENTRIES || directory.nameCount > MAX_EXPORT_ENTRIES then Err(TooManyExports)
    else Ok(directory)
  }

  function ReadTables(range: Range, headers: Headers): (r: Outcome<Tables>)
    requires Exact(range)
    ensures r.Ok? ==> WellSized(r.value)
  {
    var directory :- ReadDirectory(range, headers);
    var functions :- range(directory.functions, directory.functionCount * 4);
    var names :- range(directory.names, directory.nameCount * 4);
    var ordinals :- range(directory.ordinals, directory.nameCount * 2);
    Ok(Tables(directory.functionCount, directory.nameCount, functions, names, ordinals,
              headers.exportDirectoryRva, headers.exportDirectoryEnd))
  }

  function Exports(read: Reader, headers: Headers): Outcome<Identity> {
    var range := Ranges(read, headers.sizeOfImage);
    var tables :- ReadTables(range, headers);
    var entries := EntriesOf(tables, FetchOf(range), Some(headers.sizeOfImage));
    var picked :- Scan(entries, tables.nameCount, true, 0, NOTHING_PICKED);
    Conclude(picked, headers.timestamp, headers.sizeOfImage)
  }

  /** What the loaded module reports about itself. */
  function MappedIdentity(read: Reader): Outcome<Identity> {
    var headers :- ReadHeaders(read);
    Exports(read, headers)
  }

  method LifecycleIdentityFromMappedImage(read: Reader) returns (r: Outcome<Identity>)
    ensures r == MappedIdentity(read)
  {
    var headers :- ReadHeaders(read);
    var sizeOfImage := headers.sizeOfImage;
    var tables :- ReadTables(Ranges(read, sizeOfImage), headers);
    ghost var fetch := Fetcher(read, sizeOfImage);
    ghost var entries := EntriesOf(tables, fetch, Some(sizeOfImage));
    var initialize: Option<u32>, shutdown: Option<u32> := None, None;
    for index := 0 to tables.nameCount
      invariant Scan(entries, tables.nameCount, true, 0, NOTHING_PICKED) ==
                Scan(entries, tables.nameCount, true, index, Picked(initialize, shutdown))
    {
      assert entries(index) == EntryAt(tables, fetch, Some(sizeOfImage), index);
      var nameRva := Word32(tables.names, index * 4);
      var name :- MappedExportName(read, nameRva, sizeOfImage);
      if name != INITIALIZE_EXPORT && name != SHUTDOWN_EXPORT {
        continue;
      }
      var ordinal := Word16(tables.ordinals, index * 2);
      if ordinal >= tables.functionCount {
        return Err(BadOrdinal);
      }
      var functionRva := Word32(tables.functions, ordinal * 4);
      if functionRva == 0 || functionRva >= sizeOfImage {
        return Err(BadFunction);
      }
      if tables.directory <= functionRva < tables.directoryEnd {
        return Err(Forwarded);
      }
      if name == INITIALIZE_EXPORT {
        initialize := Some(functionRva);
      } else {
        shutdown := Some(functionRva);
      }
      if initialize.Some? && shutdown.Some? {
        return Conclude(Picked(initialize, shutdown), headers.timestamp, sizeOfImage);
      }
    }
    return Conclude(Picked(initialize, shutdown), headers.timestamp, sizeOfImage);
  }
}
