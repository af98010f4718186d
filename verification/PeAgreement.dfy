/** The file parser and the mapped-image parser report the same identity, also of a
    library that has been running: its image may have been rewritten wherever the file
    parser does not look. */
module PeAgreement {
  import opened Words
  import opened Wrappers
  import opened PeFormat
  import Disk = PeDisk
  import Mapped = PeMapped

  /** The loaded image, byte by byte. */
  type Memory = nat -> byte

  ghost predicate Holds(memory: Memory, start: nat, bytes: seq<byte>) {
    forall k :: 0 <= k < |bytes| ==> memory(start + k) == bytes[k]
  }

  /** The addresses that need not hold what the file has: the library has written its
      data there, or the operating system its imports, relocations or image base. */
  type Rewritten = iset<int>

  ghost predicate HoldsOutside(memory: Memory, rewritten: Rewritten, start: nat, bytes: seq<byte>) {
    forall k :: 0 <= k < |bytes| && start + k !in rewritten ==> memory(start + k) == bytes[k]
  }

  /** None of these addresses is rewritten. */
  ghost predicate Kept(rewritten: Rewritten, start: int, size: nat) {
    forall a :: start <= a < start + size ==> a !in rewritten
  }

  /** A full read shows what the memory holds. */
  ghost predicate ReadsFrom(read: Mapped.Reader, memory: Memory) {
    forall rva: u32, size: nat :: read(rva, size).Ok? && |read(rva, size).value| == size ==>
      Holds(memory, rva, read(rva, size).value)
  }

  /** The raw data of a section, as far as the file has it. */
  function RawBytes(image: seq<byte>, section: seq<byte>): seq<byte>
    requires |section| == SECTION_HEADER_SIZE
  {
    var start := Disk.RawPointer(section);
    var end := start + Disk.RawSize(section);
    if start > |image| then [] else image[start..if end > |image| then |image| else end]
  }

  /** The loader copied every section's raw data to its virtual address, and only the
      rewritten part of it has changed since. */
  ghost predicate SectionsHeld(image: seq<byte>, table: seq<byte>, memory: Memory, rewritten: Rewritten) {
    forall index: nat :: index < Disk.SectionCount(table) ==>
      var section := Disk.SectionAt(table, index);
      HoldsOutside(memory, rewritten, Disk.VirtualAddress(section), RawBytes(image, section))
  }

  /** Where the optional header ends in a file whose headers parse. */
  function HeaderEnd(image: seq<byte>): nat
    requires Disk.ParseHeaders(image).Ok?
  {
    var pe := Word32(image, 0x3C);
    pe + 4 + COFF_HEADER_SIZE + Word16(image, pe + 20)
  }

  ghost predicate HeadersHeld(image: seq<byte>, memory: Memory, rewritten: Rewritten)
    requires Disk.ParseHeaders(image).Ok?
  {
    HeaderEnd(image) <= |image| && HoldsOutside(memory, rewritten, 0, image[..HeaderEnd(image)])
  }

  /** The mapped image is a loading of the file, rewritten at most there. */
  ghost predicate Loaded(image: seq<byte>, memory: Memory, rewritten: Rewritten) {
    && Disk.ParseHeaders(image).Ok?
    && HeadersHeld(image, memory, rewritten)
    && SectionsHeld(image, Disk.ParseHeaders(image).value.sectionTable, memory, rewritten)
  }

  // ----- what must not be rewritten -----

  /** The header fields that reach the identity: where the PE header is, its timestamp,
      the optional header's size, and there the image's size and the export directory. */
  ghost predicate HeaderFieldsKept(image: seq<byte>, rewritten: Rewritten)
    requires Disk.ParseHeaders(image).Ok?
  {
    var pe := Word32(image, 0x3C);
    && Kept(rewritten, 0x3C, 4) && Kept(rewritten, pe + 8, 4) && Kept(rewritten, pe + 20, 2)
    && Kept(rewritten, pe + 24 + SIZE_OF_IMAGE_OFFSET, 4)
    && Kept(rewritten, pe + 24 + EXPORT_DIRECTORY_RVA_OFFSET, 4)
    && Kept(rewritten, pe + 24 + EXPORT_DIRECTORY_SIZE_OFFSET, 4)
  }

  /** The counts and table addresses in the export directory, and the three tables. */
  ghost predicate TablesKept(range: Range, headers: Disk.Headers, rewritten: Rewritten)
    requires Exact(range)
  {
    && Kept(rewritten, headers.exportDirectoryRva + 20, 20)
    && (Disk.ReadDirectory(range, headers).Ok? ==>
          var directory := Disk.ReadDirectory(range, headers).value;
          && Kept(rewritten, directory.functions, directory.functionCount * 4)
          && Kept(rewritten, directory.names, directory.nameCount * 4)
          && Kept(rewritten, directory.ordinals, directory.nameCount * 2))
  }

  /** Every export name, up to its NUL. */
  ghost predicate NamesKept(tables: Tables, fetch: Fetch, rewritten: Rewritten)
    requires WellSized(tables)
  {
    forall index: nat :: index < tables.nameCount && ExportName(tables, fetch, index).Ok? ==>
      Kept(rewritten, Word32(tables.names, index * 4), |ExportName(tables, fetch, index).value|)
  }

  ghost predicate ExportsKept(range: Range, headers: Disk.Headers, rewritten: Rewritten)
    requires Exact(range)
  {
    && TablesKept(range, headers, rewritten)
    && (Disk.ReadTables(range, headers).Ok? ==>
          NamesKept(Disk.ReadTables(range, headers).value, FetchOf(range), rewritten))
  }

  /** Nothing that the file parser takes its answer from is rewritten. */
  ghost predicate IdentityKept(image: seq<byte>, rewritten: Rewritten)
    requires Disk.ParseHeaders(image).Ok?
  {
    var headers := Disk.ParseHeaders(image).value;
    && HeaderFieldsKept(image, rewritten)
    && ExportsKept(Disk.Ranges(image, headers.sectionTable), headers, rewritten)
  }

  // ----- headers -----

  /** A word that the reader shows and that is not rewritten is the file's. */
  lemma KeptWord32(memory: Memory, rewritten: Rewritten, start: nat, bytes: seq<byte>, head: seq<byte>, at: nat)
    requires Holds(memory, start, bytes) && HoldsOutside(memory, rewritten, 0, head)
    requires at + 4 <= |bytes| && start + at + 4 <= |head| && Kept(rewritten, start + at, 4)
    ensures Word32(bytes, at) == Word32(head, start + at)
  {
    KeptWord16(memory, rewritten, start, bytes, head, at);
    KeptWord16(memory, rewritten, start, bytes, head, at + 2);
  }

  lemma KeptWord16(memory: Memory, rewritten: Rewritten, start: nat, bytes: seq<byte>, head: seq<byte>, at: nat)
    requires Holds(memory, start, bytes) && HoldsOutside(memory, rewritten, 0, head)
    requires at + 2 <= |bytes| && start + at + 2 <= |head| && Kept(rewritten, start + at, 2)
    ensures bytes[at] == head[start + at] && bytes[at + 1] == head[start + at + 1]
    ensures Word16(bytes, at) == Word16(head, start + at)
  {
    assert bytes[at] == memory(start + at) == memory(0 + (start + at)) == head[start + at];
    assert bytes[at + 1] == memory(start + (at + 1)) == memory(0 + (start + at + 1)) == head[start + at + 1];
  }

  /** The optional header's bytes in the file. */
  function OptionalHeader(image: seq<byte>): seq<byte>
    requires Disk.ParseHeaders(image).Ok? && HeaderEnd(image) <= |image|
  {
    image[Word32(image, 0x3C) + 24..HeaderEnd(image)]
  }

  lemma DiskOptionalFields(image: seq<byte>, pe: nat, timestamp: u32)
    requires Disk.ParseOptionalHeader(image, pe + 4, timestamp).Ok? && pe + 24 <= |image|
    ensures var size := Word16(image, pe + 20);
            && MIN_PE32_OPTIONAL_HEADER_SIZE <= size && pe + 24 + size <= |image|
            && var headers, optional := Disk.ParseOptionalHeader(image, pe + 4, timestamp).value, image[pe + 24..pe + 24 + size];
               && headers.timestamp == timestamp
               && headers.sizeOfImage == Word32(optional, SIZE_OF_IMAGE_OFFSET)
               && headers.exportDirectoryRva == Word32(optional, EXPORT_DIRECTORY_RVA_OFFSET)
               && headers.exportDirectorySize == Word32(optional, EXPORT_DIRECTORY_SIZE_OFFSET)
  {
  }

  lemma DiskCoffHeader(image: seq<byte>)
    requires Disk.ParseHeaders(image).Ok?
    ensures 0x40 <= |image| && Word32(image, 0x3C) + 24 <= |image|
    ensures Disk.ParseHeaders(image)
            == Disk.ParseOptionalHeader(image, Word32(image, 0x3C) + 4, Word32(image, Word32(image, 0x3C) + 8))
  {
  }

  /** The file's optional header lies where the COFF header says. */
  lemma DiskOptionalHeader(image: seq<byte>)
    requires Disk.ParseHeaders(image).Ok?
    ensures HeaderEnd(image) <= |image|
    ensures var pe, headers, optional := Word32(image, 0x3C), Disk.ParseHeaders(image).value, OptionalHeader(image);
            && |optional| == Word16(image, pe + 20) >= MIN_PE32_OPTIONAL_HEADER_SIZE
            && headers.timestamp == Word32(image, pe + 8)
            && headers.sizeOfImage == Word32(optional, SIZE_OF_IMAGE_OFFSET)
            && headers.exportDirectoryRva == Word32(optional, EXPORT_DIRECTORY_RVA_OFFSET)
            && headers.exportDirectorySize == Word32(optional, EXPORT_DIRECTORY_SIZE_OFFSET)
  {
    var pe := Word32(image, 0x3C);
    DiskCoffHeader(image);
    DiskOptionalFields(image, pe, Word32(image, pe + 8));
    assert HeaderEnd(image) == pe + 24 + Word16(image, pe + 20);
  }

  lemma WordsOfPrefix(image: seq<byte>, end: nat, at: nat)
    requires at + 4 <= end <= |image|
    ensures Word32(image[..end], at) == Word32(image, at)
    ensures Word16(image[..end], at) == Word16(image, at)
  {
  }

  lemma WordOfPart(image: seq<byte>, from: nat, end: nat, at: nat)
    requires from + at + 4 <= end <= |image|
    ensures Word32(image[from..end], at) == Word32(image[..end], from + at)
  {
  }

  lemma PeOffsetAgrees(image: seq<byte>, read: Mapped.Reader, memory: Memory, rewritten: Rewritten)
    requires Loaded(image, memory, rewritten) && ReadsFrom(read, memory) && Mapped.ReadPeOffset(read).Ok?
    requires HeaderFieldsKept(image, rewritten)
    ensures HeaderEnd(image) >= 128
    ensures Mapped.ReadPeOffset(read).value == Word32(image, 0x3C)
  {
    DiskOptionalHeader(image);
    KeptWord32(memory, rewritten, 0, read(0, 0x40).value, image[..HeaderEnd(image)], 0x3C);
    WordsOfPrefix(image, HeaderEnd(image), 0x3C);
  }

  lemma CoffFieldsAgree(head: seq<byte>, read: Mapped.Reader, memory: Memory, rewritten: Rewritten, pe: u32)
    requires HoldsOutside(memory, rewritten, 0, head) && ReadsFrom(read, memory) && pe + 24 <= |head|
    requires Kept(rewritten, pe + 8, 4) && Kept(rewritten, pe + 20, 2)
    requires read(pe, 24).Ok? && |read(pe, 24).value| == 24
    ensures Word32(read(pe, 24).value, 8) == Word32(head, pe + 8)
    ensures Word16(read(pe, 24).value, 20) == Word16(head, pe + 20)
  {
    KeptWord32(memory, rewritten, pe, read(pe, 24).value, head, 8);
    KeptWord16(memory, rewritten, pe, read(pe, 24).value, head, 20);
  }

  /** The mapped parser finds the same COFF header. */
  lemma CoffAgrees(image: seq<byte>, read: Mapped.Reader, memory: Memory, rewritten: Rewritten)
    requires Loaded(image, memory, rewritten) && ReadsFrom(read, memory) && Mapped.ReadHeaders(read).Ok?
    requires HeaderFieldsKept(image, rewritten)
    ensures var pe := Word32(image, 0x3C);
            && pe <= MAX_PE_HEADER_OFFSET && pe + 24 <= |image|
            && Mapped.ReadHeaders(read) ==
               Mapped.ReadOptionalHeader(read, pe, Word32(image, pe + 8), Word16(image, pe + 20))
  {
    PeOffsetAgrees(image, read, memory, rewritten);
    DiskOptionalHeader(image);
    var pe := Word32(image, 0x3C);
    CoffFieldsAgree(image[..HeaderEnd(image)], read, memory, rewritten, pe);
    WordsOfPrefix(image, HeaderEnd(image), pe + 8);
    WordsOfPrefix(image, HeaderEnd(image), pe + 20);
  }

  /** Both parsers read the same four header fields. */
  lemma HeadersAgree(image: seq<byte>, read: Mapped.Reader, memory: Memory, rewritten: Rewritten)
    requires Loaded(image, memory, rewritten) && ReadsFrom(read, memory)
    requires HeaderFieldsKept(image, rewritten)
    requires Mapped.ReadHeaders(read).Ok?
    ensures var disk, mapped := Disk.ParseHeaders(image).value, Mapped.ReadHeaders(read).value;
            && mapped.exportDirectoryRva == disk.exportDirectoryRva
            && mapped.exportDirectoryEnd == disk.exportDirectoryRva + disk.exportDirectorySize
            && mapped.timestamp == disk.timestamp
            && mapped.sizeOfImage == disk.sizeOfImage
  {
    DiskOptionalHeader(image);
    CoffAgrees(image, read, memory, rewritten);
    var pe, size := Word32(image, 0x3C), Word16(image, Word32(image, 0x3C) + 20);
    var head := image[..HeaderEnd(image)];
    OptionalFieldsAgree(head, read, memory, rewritten, pe, Word32(image, pe + 8), size);
    WordOfPart(image, pe + 24, HeaderEnd(image), SIZE_OF_IMAGE_OFFSET);
    WordOfPart(image, pe + 24, HeaderEnd(image), EXPORT_DIRECTORY_RVA_OFFSET);
    WordOfPart(image, pe + 24, HeaderEnd(image), EXPORT_DIRECTORY_SIZE_OFFSET);
  }

  lemma OptionalFieldsAgree(head: seq<byte>, read: Mapped.Reader, memory: Memory, rewritten: Rewritten,
                            pe: u32, timestamp: u32, size: u16)
    requires pe <= MAX_PE_HEADER_OFFSET && MIN_PE32_OPTIONAL_HEADER_SIZE <= size && pe + 24 + size == |head|
    requires HoldsOutside(memory, rewritten, 0, head) && ReadsFrom(read, memory)
    requires Kept(rewritten, pe + 24 + SIZE_OF_IMAGE_OFFSET, 4)
    requires Kept(rewritten, pe + 24 + EXPORT_DIRECTORY_RVA_OFFSET, 4)
    requires Kept(rewritten, pe + 24 + EXPORT_DIRECTORY_SIZE_OFFSET, 4)
    requires Mapped.ReadOptionalHeader(read, pe, timestamp, size).Ok?
    ensures var mapped := Mapped.ReadOptionalHeader(read, pe, timestamp, size).value;
            && mapped.timestamp == timestamp
            && mapped.sizeOfImage == Word32(head, pe + 24 + SIZE_OF_IMAGE_OFFSET)
            && mapped.exportDirectoryRva == Word32(head, pe + 24 + EXPORT_DIRECTORY_RVA_OFFSET)
            && mapped.exportDirectoryEnd ==
               mapped.exportDirectoryRva + Word32(head, pe + 24 + EXPORT_DIRECTORY_SIZE_OFFSET)
  {
    var optional := read(pe + 24, size).value;
    KeptWord32(memory, rewritten, pe + 24, optional, head, SIZE_OF_IMAGE_OFFSET);
    KeptWord32(memory, rewritten, pe + 24, optional, head, EXPORT_DIRECTORY_RVA_OFFSET);
    KeptWord32(memory, rewritten, pe + 24, optional, head, EXPORT_DIRECTORY_SIZE_OFFSET);
  }

  // ----- ranges, tables and names -----

  /** Equal but for what is rewritten. */
  ghost predicate SameOutside(rewritten: Rewritten, start: nat, a: seq<byte>, b: seq<byte>) {
    |a| == |b| && forall k :: 0 <= k < |a| && start + k !in rewritten ==> a[k] == b[k]
  }

  lemma KeptIsSame(rewritten: Rewritten, start: nat, a: seq<byte>, b: seq<byte>)
    requires SameOutside(rewritten, start, a, b) && Kept(rewritten, start, |a|)
    ensures a == b
  {
    forall k | 0 <= k < |a|
      ensures a[k] == b[k]
    {
      assert start + k !in rewritten;
    }
  }

  lemma ShownOutside(memory: Memory, rewritten: Rewritten, start: nat, a: seq<byte>, b: seq<byte>)
    requires HoldsOutside(memory, rewritten, start, a) && Holds(memory, start, b) && |a| == |b|
    ensures SameOutside(rewritten, start, a, b)
  {
    assert forall k :: 0 <= k < |a| && start + k !in rewritten ==> a[k] == memory(start + k) == b[k];
  }

  lemma PartHeld(memory: Memory, rewritten: Rewritten, start: nat, bytes: seq<byte>, from: nat, size: nat)
    requires HoldsOutside(memory, rewritten, start, bytes) && from + size <= |bytes|
    ensures HoldsOutside(memory, rewritten, start + from, bytes[from..from + size])
  {
    var part := bytes[from..from + size];
    forall k | 0 <= k < |part| && start + from + k !in rewritten
      ensures memory(start + from + k) == part[k]
    {
      assert part[k] == bytes[from + k];
      assert memory(start + (from + k)) == bytes[from + k];
    }
  }

  /** A translated range holds the bytes the file has at its offset. */
  lemma BackedRangeHeld(image: seq<byte>, section: seq<byte>, memory: Memory, rewritten: Rewritten,
                        rva: u32, size: u32, offset: nat)
    requires |section| == SECTION_HEADER_SIZE
    requires HoldsOutside(memory, rewritten, Disk.VirtualAddress(section), RawBytes(image, section))
    requires Disk.VirtualAddress(section) <= rva
    requires rva - Disk.VirtualAddress(section) + size <= Disk.RawSize(section)
    requires offset == Disk.RawPointer(section) + (rva - Disk.VirtualAddress(section)) && offset + size <= |image|
    ensures HoldsOutside(memory, rewritten, rva, image[offset..offset + size])
  {
    var start, rawStart, rawSize := Disk.VirtualAddress(section), Disk.RawPointer(section), Disk.RawSize(section);
    var raw, from := RawBytes(image, section), rva - start;
    PartHeld(memory, rewritten, start, raw, from, size);
    assert forall k :: 0 <= k < |raw| ==> raw[k] == image[rawStart + k];
    var part, bytes := raw[from..from + size], image[offset..offset + size];
    assert forall k :: 0 <= k < size ==> part[k] == raw[from + k] == image[rawStart + (from + k)] == bytes[k];
    assert part == bytes;
  }

  /** Where both parsers read a range, they read the same bytes but for rewritten ones. */
  lemma RangesAgree(image: seq<byte>, table: seq<byte>, read: Mapped.Reader, memory: Memory, rewritten: Rewritten,
                    rva: u32, size: u32, limit: Option<u32>)
    requires SectionsHeld(image, table, memory, rewritten) && ReadsFrom(read, memory)
    requires Disk.ReadRange(image, table, rva, size).Ok? && Mapped.MappedRead(read, rva, size, limit).Ok?
    ensures SameOutside(rewritten, rva, Disk.ReadRange(image, table, rva, size).value,
                        Mapped.MappedRead(read, rva, size, limit).value)
  {
    var offset := DiskRangeHeld(image, table, memory, rewritten, rva, size);
    ShownOutside(memory, rewritten, rva, image[offset..offset + size], read(rva, size).value);
  }

  lemma ReadRangeIsSlice(image: seq<byte>, table: seq<byte>, rva: u32, size: u32)
    requires Disk.ReadRange(image, table, rva, size).Ok?
    ensures Disk.Translate(image, table, rva, size).Ok?
    ensures var offset := Disk.Translate(image, table, rva, size).value;
            offset + size <= |image| && Disk.ReadRange(image, table, rva, size) == Ok(image[offset..offset + size])
  {
  }

  /** What the file parser reads at an RVA, the memory holds there unless rewritten. */
  lemma DiskRangeHeld(image: seq<byte>, table: seq<byte>, memory: Memory, rewritten: Rewritten, rva: u32, size: u32)
    returns (offset: nat)
    requires SectionsHeld(image, table, memory, rewritten) && Disk.ReadRange(image, table, rva, size).Ok?
    ensures offset + size <= |image| && Disk.ReadRange(image, table, rva, size) == Ok(image[offset..offset + size])
    ensures HoldsOutside(memory, rewritten, rva, image[offset..offset + size])
  {
    ReadRangeIsSlice(image, table, rva, size);
    offset := Disk.Translate(image, table, rva, size).value;
    var index := RangeIsBacked(image, table, rva, size);
    BackedIsHeld(image, table, memory, rewritten, rva, size, index, offset);
  }

  lemma RangeIsBacked(image: seq<byte>, table: seq<byte>, rva: u32, size: u32) returns (index: nat)
    requires Disk.Translate(image, table, rva, size).Ok?
    ensures Disk.BackedAt(image, table, rva, size, index, Disk.Translate(image, table, rva, size).value)
  {
    Disk.TranslationIsBacked(image, table, rva, size, 0);
    index :| Disk.BackedAt(image, table, rva, size, index, Disk.Translate(image, table, rva, size).value);
  }

  lemma BackedIsHeld(image: seq<byte>, table: seq<byte>, memory: Memory, rewritten: Rewritten,
                     rva: u32, size: u32, index: nat, offset: nat)
    requires SectionsHeld(image, table, memory, rewritten) && Disk.BackedAt(image, table, rva, size, index, offset)
    ensures HoldsOutside(memory, rewritten, rva, image[offset..offset + size])
  {
    BackedRangeHeld(image, Disk.SectionAt(table, index), memory, rewritten, rva, size, offset);
  }

  ghost predicate SameRanges(f: Range, g: Range, rewritten: Rewritten) {
    forall rva: u32, size: u32 :: f(rva, size).Ok? && g(rva, size).Ok? ==>
      SameOutside(rewritten, rva, f(rva, size).value, g(rva, size).value)
  }

  lemma ParsersReadTheSame(image: seq<byte>, table: seq<byte>, read: Mapped.Reader, memory: Memory, rewritten: Rewritten,
                           sizeOfImage: u32)
    requires SectionsHeld(image, table, memory, rewritten) && ReadsFrom(read, memory)
    ensures SameRanges(Disk.Ranges(image, table), Mapped.Ranges(read, sizeOfImage), rewritten)
  {
    forall rva: u32, size: u32 |
        Disk.ReadRange(image, table, rva, size).Ok? && Mapped.MappedRead(read, rva, size, Some(sizeOfImage)).Ok?
      ensures SameOutside(rewritten, rva, Disk.ReadRange(image, table, rva, size).value,
                          Mapped.MappedRead(read, rva, size, Some(sizeOfImage)).value)
    {
      RangesAgree(image, table, read, memory, rewritten, rva, size, Some(sizeOfImage));
    }
  }

  lemma KeptRange(f: Range, g: Range, rewritten: Rewritten, rva: u32, size: u32)
    requires Exact(f) && SameRanges(f, g, rewritten) && Kept(rewritten, rva, size)
    requires f(rva, size).Ok? && g(rva, size).Ok?
    ensures f(rva, size) == g(rva, size)
  {
    KeptIsSame(rewritten, rva, f(rva, size).value, g(rva, size).value);
  }

  /** The second half of the directory is all that is used of it. */
  lemma DirectoryFieldsAgree(rewritten: Rewritten, rva: nat, a: seq<byte>, b: seq<byte>)
    requires |a| == EXPORT_DIRECTORY_HEADER_SIZE && SameOutside(rewritten, rva, a, b)
    requires Kept(rewritten, rva + 20, 20)
    ensures DirectoryOf(a) == DirectoryOf(b)
  {
    assert forall k :: 20 <= k < 40 ==> rva + k !in rewritten && a[k] == b[k];
  }

  lemma DirectoriesAgree(f: Range, g: Range, disk: Disk.Headers, mapped: Mapped.Headers, rewritten: Rewritten)
    requires Exact(f) && Exact(g) && SameRanges(f, g, rewritten)
    requires Kept(rewritten, disk.exportDirectoryRva + 20, 20)
    requires mapped.exportDirectoryRva == disk.exportDirectoryRva
    requires Disk.ReadDirectory(f, disk).Ok? && Mapped.ReadDirectory(g, mapped).Ok?
    ensures Disk.ReadDirectory(f, disk) == Mapped.ReadDirectory(g, mapped)
  {
    var rva := disk.exportDirectoryRva;
    DirectoryFieldsAgree(rewritten, rva, f(rva, EXPORT_DIRECTORY_HEADER_SIZE).value, g(rva, EXPORT_DIRECTORY_HEADER_SIZE).value);
  }

  lemma TablesAgree(f: Range, g: Range, disk: Disk.Headers, mapped: Mapped.Headers, rewritten: Rewritten)
    requires Exact(f) && Exact(g) && SameRanges(f, g, rewritten) && TablesKept(f, disk, rewritten)
    requires mapped.exportDirectoryRva == disk.exportDirectoryRva
    requires mapped.exportDirectoryEnd == disk.exportDirectoryRva + disk.exportDirectorySize
    requires Disk.ReadTables(f, disk).Ok? && Mapped.ReadTables(g, mapped).Ok?
    ensures Disk.ReadTables(f, disk) == Mapped.ReadTables(g, mapped)
  {
    DirectoriesAgree(f, g, disk, mapped, rewritten);
    var directory := Disk.ReadDirectory(f, disk).value;
    KeptRange(f, g, rewritten, directory.names, directory.nameCount * 4);
    KeptRange(f, g, rewritten, directory.functions, directory.functionCount * 4);
    KeptRange(f, g, rewritten, directory.ordinals, directory.nameCount * 2);
  }

  ghost predicate FetchesAgree(f: Fetch, g: Fetch, rewritten: Rewritten) {
    forall rva: u32 :: f(rva).Ok? && g(rva).Ok? && rva !in rewritten ==> f(rva) == g(rva)
  }

  lemma RangesGiveFetches(f: Range, g: Range, rewritten: Rewritten)
    requires Exact(f) && Exact(g) && SameRanges(f, g, rewritten)
    ensures FetchesAgree(FetchOf(f), FetchOf(g), rewritten)
  {
    forall rva: u32 | FetchOf(f)(rva).Ok? && FetchOf(g)(rva).Ok? && rva !in rewritten
      ensures FetchOf(f)(rva) == FetchOf(g)(rva)
    {
      assert SameOutside(rewritten, rva, f(rva, 1).value, g(rva, 1).value);
      assert rva + 0 !in rewritten;
    }
  }

  lemma {:induction false} NamesAgree(f: Fetch, g: Fetch, rewritten: Rewritten, name: u32, offset: nat)
    requires FetchesAgree(f, g, rewritten) && offset <= MAX_EXPORT_NAME_SIZE
    requires NameFrom(f, name, offset).Ok? && NameFrom(g, name, offset).Ok?
    requires Kept(rewritten, name + offset, |NameFrom(f, name, offset).value|)
    ensures NameFrom(f, name, offset) == NameFrom(g, name, offset)
    decreases MAX_EXPORT_NAME_SIZE - offset
  {
    assert f(name + offset) == g(name + offset);
    if f(name + offset).value != 0 {
      NamesAgree(f, g, rewritten, name, offset + 1);
    }
  }

  ghost predicate EntriesAgree(f: Entries, g: Entries) {
    forall index: nat :: f(index).Ok? && g(index).Ok? ==> f(index) == g(index)
  }

  lemma TablesGiveEntries(tables: Tables, f: Fetch, g: Fetch, limit: u32, rewritten: Rewritten)
    requires WellSized(tables) && FetchesAgree(f, g, rewritten) && NamesKept(tables, f, rewritten)
    ensures EntriesAgree(EntriesOf(tables, f, None), EntriesOf(tables, g, Some(limit)))
  {
    forall index: nat | EntryAt(tables, f, None, index).Ok? && EntryAt(tables, g, Some(limit), index).Ok?
      ensures EntryAt(tables, f, None, index) == EntryAt(tables, g, Some(limit), index)
    {
      if index < tables.nameCount {
        NamesAgree(f, g, rewritten, Word32(tables.names, index * 4), 0);
      }
    }
  }

  // ----- the two loops -----

  /** What the first `count` entries bind, the last binding winning. */
  function Bound(entries: Entries, count: nat): Picked {
    if count == 0 then NOTHING_PICKED
    else match entries(count - 1)
      case Ok(entry) => Pick(Bound(entries, count - 1), entry)
      case Err(_) => Bound(entries, count - 1)
  }

  /** The first number of entries at or after `from` by which both exports are
      bound, or all of them. */
  function StopFrom(entries: Entries, count: nat, from: nat): (stop: nat)
    requires from <= count
    ensures from <= stop <= count
    ensures stop < count ==> Both(Bound(entries, stop))
    decreases count - from
  {
    if from == count || Both(Bound(entries, from)) then from
    else StopFrom(entries, count, from + 1)
  }

  /** The file parser's loop binds over all the entries. */
  lemma {:induction false} FullScanBindsAll(entries: Entries, count: nat, index: nat)
    requires index <= count
    requires Scan(entries, count, false, index, Bound(entries, index)).Ok?
    ensures Scan(entries, count, false, index, Bound(entries, index)) == Ok(Bound(entries, count))
    ensures forall k :: index <= k < count ==> entries(k).Ok?
    decreases count - index
  {
    if index < count {
      FullScanBindsAll(entries, count, index + 1);
    }
  }

  /** The mapped parser's loop binds over the entries up to its stop. */
  lemma {:induction false} EarlyScanBindsToStop(f: Entries, g: Entries, count: nat, index: nat)
    requires index <= count && EntriesAgree(f, g)
    requires forall k :: index <= k < count ==> f(k).Ok?
    requires !Both(Bound(f, index))
    requires Scan(g, count, true, index, Bound(f, index)).Ok?
    ensures Scan(g, count, true, index, Bound(f, index)) == Ok(Bound(f, StopFrom(f, count, index)))
    decreases count - index
  {
    if index < count {
      assert f(index) == g(index);
      if !Both(Bound(f, index + 1)) {
        EarlyScanBindsToStop(f, g, count, index + 1);
      }
    }
  }

  // ----- the identities -----

  lemma ScansFromBindings(f: Range, g: Range, disk: Disk.Headers, mapped: Mapped.Headers, rewritten: Rewritten)
    requires Exact(f) && Exact(g) && SameRanges(f, g, rewritten) && ExportsKept(f, disk, rewritten)
    requires mapped.exportDirectoryRva == disk.exportDirectoryRva
    requires mapped.exportDirectoryEnd == disk.exportDirectoryRva + disk.exportDirectorySize
    requires Disk.ReadTables(f, disk).Ok? && Mapped.ReadTables(g, mapped).Ok?
    requires var t, u := Disk.ReadTables(f, disk).value, Mapped.ReadTables(g, mapped).value;
             && Scan(EntriesOf(t, FetchOf(f), None), t.nameCount, false, 0, NOTHING_PICKED).Ok?
             && Scan(EntriesOf(u, FetchOf(g), Some(mapped.sizeOfImage)), u.nameCount, true, 0, NOTHING_PICKED).Ok?
    ensures var t, u := Disk.ReadTables(f, disk).value, Mapped.ReadTables(g, mapped).value;
            var entries := EntriesOf(t, FetchOf(f), None);
            && (forall k :: 0 <= k < t.nameCount ==> entries(k).Ok?)
            && Scan(entries, t.nameCount, false, 0, NOTHING_PICKED) == Ok(Bound(entries, t.nameCount))
            && Scan(EntriesOf(u, FetchOf(g), Some(mapped.sizeOfImage)), u.nameCount, true, 0, NOTHING_PICKED) ==
               Ok(Bound(entries, StopFrom(entries, t.nameCount, 0)))
  {
    TablesAgree(f, g, disk, mapped, rewritten);
    RangesGiveFetches(f, g, rewritten);
    var tables := Disk.ReadTables(f, disk).value;
    TablesGiveEntries(tables, FetchOf(f), FetchOf(g), mapped.sizeOfImage, rewritten);
    var e1, e2 := EntriesOf(tables, FetchOf(f), None), EntriesOf(tables, FetchOf(g), Some(mapped.sizeOfImage));
    FullScanBindsAll(e1, tables.nameCount, 0);
    EarlyScanBindsToStop(e1, e2, tables.nameCount, 0);
  }

  /** The export entries as the file parser resolves them, and how many. */
  function DiskEntries(image: seq<byte>, headers: Disk.Headers): Entries
    requires Disk.ReadTables(Disk.Ranges(image, headers.sectionTable), headers).Ok?
  {
    var range := Disk.Ranges(image, headers.sectionTable);
    EntriesOf(Disk.ReadTables(range, headers).value, FetchOf(range), None)
  }

  function DiskCount(image: seq<byte>, headers: Disk.Headers): nat
    requires Disk.ReadTables(Disk.Ranges(image, headers.sectionTable), headers).Ok?
  {
    Disk.ReadTables(Disk.Ranges(image, headers.sectionTable), headers).value.nameCount
  }

  /** When both export walks succeed, the mapped one reports the bindings at its
      stop and the file one the bindings over the whole table. */
  lemma ExportsFromBindings(image: seq<byte>, disk: Disk.Headers, read: Mapped.Reader, mapped: Mapped.Headers,
                            memory: Memory, rewritten: Rewritten)
    requires SectionsHeld(image, disk.sectionTable, memory, rewritten) && ReadsFrom(read, memory)
    requires ExportsKept(Disk.Ranges(image, disk.sectionTable), disk, rewritten)
    requires mapped.exportDirectoryRva == disk.exportDirectoryRva
    requires mapped.exportDirectoryEnd == disk.exportDirectoryRva + disk.exportDirectorySize
    requires Disk.Exports(image, disk).Ok? && Mapped.Exports(read, mapped).Ok?
    ensures Disk.ReadTables(Disk.Ranges(image, disk.sectionTable), disk).Ok?
    ensures var entries, count := DiskEntries(image, disk), DiskCount(image, disk);
            && (forall k :: 0 <= k < count ==> entries(k).Ok?)
            && Conclude(Bound(entries, count), disk.timestamp, disk.sizeOfImage) == Disk.Exports(image, disk)
            && Conclude(Bound(entries, StopFrom(entries, count, 0)), mapped.timestamp, mapped.sizeOfImage) ==
               Mapped.Exports(read, mapped)
  {
    var f, g := Disk.Ranges(image, disk.sectionTable), Mapped.Ranges(read, mapped.sizeOfImage);
    ParsersReadTheSame(image, disk.sectionTable, read, memory, rewritten, mapped.sizeOfImage);
    ScansFromBindings(f, g, disk, mapped, rewritten);
  }

  /** The entry at `index` names the initialize export, or the shutdown one. */
  predicate Binds(entries: Entries, initialize: bool, index: nat) {
    entries(index).Ok? && (if initialize then entries(index).value.Initialize? else entries(index).value.Shutdown?)
  }

  function Slot(picked: Picked, initialize: bool): Option<u32> {
    if initialize then picked.initialize else picked.shutdown
  }

  /** The last entry in [from, to) that names the export. */
  function LastBinding(entries: Entries, initialize: bool, from: nat, to: nat): Option<u32>
    requires from <= to
  {
    if from == to then None
    else if Binds(entries, initialize, to - 1) then Some(entries(to - 1).value.rva)
    else LastBinding(entries, initialize, from, to - 1)
  }

  lemma {:induction false} BoundSplits(entries: Entries, initialize: bool, from: nat, to: nat)
    requires from <= to
    ensures Slot(Bound(entries, to), initialize) ==
            var later := LastBinding(entries, initialize, from, to);
            if later.Some? then later else Slot(Bound(entries, from), initialize)
  {
    if from < to {
      BoundSplits(entries, initialize, from, to - 1);
    }
  }

  /** No lifecycle name occurs twice. */
  ghost predicate UniqueNames(entries: Entries, count: nat) {
    forall initialize: bool, i: nat, j: nat :: i < j < count && Binds(entries, initialize, i) ==> !Binds(entries, initialize, j)
  }

  /** What is bound was bound by an entry. */
  lemma {:induction false} BoundByAnEntry(entries: Entries, initialize: bool, count: nat) returns (index: nat)
    requires Slot(Bound(entries, count), initialize).Some?
    ensures index < count && Binds(entries, initialize, index)
    ensures entries(index).value.rva == Slot(Bound(entries, count), initialize).value
  {
    if Binds(entries, initialize, count - 1) {
      index := count - 1;
    } else {
      index := BoundByAnEntry(entries, initialize, count - 1);
    }
  }

  lemma {:induction false} NoLaterBinding(entries: Entries, initialize: bool, from: nat, to: nat, index: nat)
    requires index < from <= to && Binds(entries, initialize, index) && UniqueNames(entries, to)
    ensures LastBinding(entries, initialize, from, to) == None
  {
    if from < to {
      NoLaterBinding(entries, initialize, from, to - 1, index);
    }
  }

  /** The parsers agree exactly when no entry past the point where both names have
      been seen binds either of them anew to another RVA. */
  predicate NoRebinding(entries: Entries, count: nat) {
    var stop := StopFrom(entries, count, 0);
    forall initialize: bool ::
      var later := LastBinding(entries, initialize, stop, count);
      later.Some? ==> later == Slot(Bound(entries, stop), initialize)
  }

  lemma UniqueNamesDoNotRebind(entries: Entries, count: nat)
    requires UniqueNames(entries, count)
    ensures NoRebinding(entries, count)
  {
    var stop := StopFrom(entries, count, 0);
    if stop < count {
      forall initialize: bool
        ensures LastBinding(entries, initialize, stop, count) == None
      {
        var index := BoundByAnEntry(entries, initialize, stop);
        NoLaterBinding(entries, initialize, stop, count, index);
      }
    }
  }

  /** Concluding at the stop is concluding at the end exactly when nothing rebinds. */
  lemma ConclusionsDecide(entries: Entries, count: nat, timestamp: u32, sizeOfImage: u32)
    requires Conclude(Bound(entries, count), timestamp, sizeOfImage).Ok?
    requires Conclude(Bound(entries, StopFrom(entries, count, 0)), timestamp, sizeOfImage).Ok?
    ensures Conclude(Bound(entries, count), timestamp, sizeOfImage) ==
            Conclude(Bound(entries, StopFrom(entries, count, 0)), timestamp, sizeOfImage)
            <==> NoRebinding(entries, count)
  {
    var stop := StopFrom(entries, count, 0);
    BoundSplits(entries, true, stop, count);
    BoundSplits(entries, false, stop, count);
    assert Slot(Bound(entries, count), true) == Bound(entries, count).initialize;
    assert Slot(Bound(entries, count), false) == Bound(entries, count).shutdown;
  }

  lemma BindingsDecide(image: seq<byte>, disk: Disk.Headers, read: Mapped.Reader, mapped: Mapped.Headers,
                       memory: Memory, rewritten: Rewritten)
    requires SectionsHeld(image, disk.sectionTable, memory, rewritten) && ReadsFrom(read, memory)
    requires ExportsKept(Disk.Ranges(image, disk.sectionTable), disk, rewritten)
    requires mapped.exportDirectoryRva == disk.exportDirectoryRva
    requires mapped.exportDirectoryEnd == disk.exportDirectoryRva + disk.exportDirectorySize
    requires mapped.timestamp == disk.timestamp && mapped.sizeOfImage == disk.sizeOfImage
    requires Disk.Exports(image, disk).Ok? && Mapped.Exports(read, mapped).Ok?
    ensures Disk.ReadTables(Disk.Ranges(image, disk.sectionTable), disk).Ok?
    ensures Disk.Exports(image, disk) == Mapped.Exports(read, mapped)
            <==> NoRebinding(DiskEntries(image, disk), DiskCount(image, disk))
  {
    ExportsFromBindings(image, disk, read, mapped, memory, rewritten);
    var entries, count := DiskEntries(image, disk), DiskCount(image, disk);
    ConclusionsDecide(entries, count, disk.timestamp, disk.sizeOfImage);
  }

  /** For any file, any loading of it, however rewritten apart from what the file parser
      takes its answer from, and any reader of that memory: when both parsers succeed,
      they report the same four-field identity if and only if no lifecycle name is
      bound anew to another RVA after both have been seen. */
  lemma ParsersAgreeUnlessRebound(image: seq<byte>, read: Mapped.Reader, memory: Memory, rewritten: Rewritten)
    requires Loaded(image, memory, rewritten) && IdentityKept(image, rewritten) && ReadsFrom(read, memory)
    requires Disk.DiskIdentity(image).Ok? && Mapped.MappedIdentity(read).Ok?
    ensures Disk.ReadTables(Disk.Ranges(image, Disk.ParseHeaders(image).value.sectionTable),
                            Disk.ParseHeaders(image).value).Ok?
    ensures var headers := Disk.ParseHeaders(image).value;
            Disk.DiskIdentity(image) == Mapped.MappedIdentity(read)
            <==> NoRebinding(DiskEntries(image, headers), DiskCount(image, headers))
  {
    HeadersAgree(image, read, memory, rewritten);
    BindingsDecide(image, Disk.ParseHeaders(image).value, read, Mapped.ReadHeaders(read).value, memory, rewritten);
  }

  /** Of an image nobody has written to, nothing needs to be kept apart. */
  lemma FreshImagesAgreeUnlessRebound(image: seq<byte>, read: Mapped.Reader, memory: Memory)
    requires Loaded(image, memory, iset{}) && ReadsFrom(read, memory)
    requires Disk.DiskIdentity(image).Ok? && Mapped.MappedIdentity(read).Ok?
    ensures Disk.ReadTables(Disk.Ranges(image, Disk.ParseHeaders(image).value.sectionTable),
                            Disk.ParseHeaders(image).value).Ok?
    ensures var headers := Disk.ParseHeaders(image).value;
            Disk.DiskIdentity(image) == Mapped.MappedIdentity(read)
            <==> NoRebinding(DiskEntries(image, headers), DiskCount(image, headers))
  {
    ParsersAgreeUnlessRebound(image, read, memory, iset{});
  }

  /** With unique lifecycle names the identities are equal. */
  lemma UniqueNamesGiveOneIdentity(image: seq<byte>, read: Mapped.Reader, memory: Memory, rewritten: Rewritten)
    requires Loaded(image, memory, rewritten) && IdentityKept(image, rewritten) && ReadsFrom(read, memory)
    requires Disk.DiskIdentity(image).Ok? && Mapped.MappedIdentity(read).Ok?
    requires var headers := Disk.ParseHeaders(image).value;
             Disk.ReadTables(Disk.Ranges(image, headers.sectionTable), headers).Ok? ==>
               UniqueNames(DiskEntries(image, headers), DiskCount(image, headers))
    ensures Disk.DiskIdentity(image) == Mapped.MappedIdentity(read)
  {
    ParsersAgreeUnlessRebound(image, read, memory, rewritten);
    var headers := Disk.ParseHeaders(image).value;
    UniqueNamesDoNotRebind(DiskEntries(image, headers), DiskCount(image, headers));
  }

  ghost predicate TableEntry(tables: Tables, fetch: Fetch, index: nat, name: seq<byte>, rva: u32)
    requires WellSized(tables)
  {
    && index < tables.nameCount
    && ExportName(tables, fetch, index) == Ok(name)
    && Word16(tables.ordinals, index * 2) < tables.functionCount
    && rva == Word32(tables.functions, Word16(tables.ordinals, index * 2) * 4)
    && rva != 0 && !(tables.directory <= rva < tables.directoryEnd)
  }

  /** Each RVA the file parser reports is the function table's word at the ordinal
      of an entry whose name is the export's, and not a forwarder. */
  lemma IdentityIsFromTheTables(image: seq<byte>, headers: Disk.Headers)
    requires Disk.Exports(image, headers).Ok?
    ensures var range := Disk.Ranges(image, headers.sectionTable);
            && Disk.ReadTables(range, headers).Ok?
            && var tables, identity := Disk.ReadTables(range, headers).value, Disk.Exports(image, headers).value;
               && (exists i :: TableEntry(tables, FetchOf(range), i, INITIALIZE_EXPORT, identity.initializeRva))
               && (exists i :: TableEntry(tables, FetchOf(range), i, SHUTDOWN_EXPORT, identity.shutdownRva))
  {
    var range := Disk.Ranges(image, headers.sectionTable);
    var tables := Disk.ReadTables(range, headers).value;
    var entries, count := DiskEntries(image, headers), tables.nameCount;
    FullScanBindsAll(entries, count, 0);
    var i := BoundByAnEntry(entries, true, count);
    EntryIsFromTheTables(tables, FetchOf(range), i);
    var j := BoundByAnEntry(entries, false, count);
    EntryIsFromTheTables(tables, FetchOf(range), j);
  }

  lemma EntryIsFromTheTables(tables: Tables, fetch: Fetch, index: nat)
    requires WellSized(tables) && index < tables.nameCount
    requires EntryAt(tables, fetch, None, index).Ok? && EntryAt(tables, fetch, None, index).value != Unrelated
    ensures var entry := EntryAt(tables, fetch, None, index).value;
            TableEntry(tables, fetch, index, if entry.Initialize? then INITIALIZE_EXPORT else SHUTDOWN_EXPORT, entry.rva)
  {
  }
}
