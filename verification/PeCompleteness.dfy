/** Exactly what the two parsers accept: each step of the export walk as an equivalence. */
module PeCompleteness {
  import opened Words
  import opened Wrappers
  import opened PeFormat
  import opened PeAgreement
  import Disk = PeDisk
  import Mapped = PeMapped

  // ----- section translation -----

  /** The end of a section's addresses, as long as the longer of its two sizes. */
  function SectionEnd(section: seq<byte>): nat
    requires |section| == SECTION_HEADER_SIZE
  {
    if Disk.RawSize(section) < Disk.VirtualSize(section) then Disk.VirtualAddress(section) + Disk.VirtualSize(section)
    else Disk.VirtualAddress(section) + Disk.RawSize(section)
  }

  /** The section's addresses are words, and the range is not wholly among them. */
  predicate Passes(table: seq<byte>, rva: u32, size: u32, index: nat)
    requires index < Disk.SectionCount(table)
  {
    var section := Disk.SectionAt(table, index);
    SectionEnd(section) <= U32_MAX && (rva < Disk.VirtualAddress(section) || SectionEnd(section) < rva + size)
  }

  ghost predicate AllPass(table: seq<byte>, rva: u32, size: u32, from: nat, to: nat)
    requires to <= Disk.SectionCount(table)
  {
    forall j :: from <= j < to ==> Passes(table, rva, size, j)
  }

  lemma {:induction false} PassingGoesOn(image: seq<byte>, table: seq<byte>, rva: u32, size: u32, index: nat, k: nat)
    requires rva + size <= U32_MAX && index <= k <= Disk.SectionCount(table) && AllPass(table, rva, size, index, k)
    ensures Disk.TranslateFrom(image, table, rva, size, index) == Disk.TranslateFrom(image, table, rva, size, k)
    decreases k - index
  {
    if index < k {
      assert Passes(table, rva, size, index);
      PassingGoesOn(image, table, rva, size, index + 1, k);
    }
  }

  /** The first section that does not pass decides, and this is what it decides. */
  lemma FirstSectionDecides(image: seq<byte>, table: seq<byte>, rva: u32, size: u32, k: nat)
    requires rva + size <= U32_MAX && k < Disk.SectionCount(table)
    requires AllPass(table, rva, size, 0, k) && !Passes(table, rva, size, k)
    ensures var section := Disk.SectionAt(table, k);
            var offset := Disk.RawPointer(section) + (rva - Disk.VirtualAddress(section));
            Disk.Translate(image, table, rva, size) ==
            if SectionEnd(section) > U32_MAX then Err(Overflow)
            else if rva - Disk.VirtualAddress(section) + size > Disk.RawSize(section) then Err(NotBacked)
            else if offset + size > U32_MAX then Err(Overflow)
            else if offset + size > |image| then Err(Outside)
            else Ok(offset)
  {
    PassingGoesOn(image, table, rva, size, 0, k);
  }

  /** A range no section has, among sections that are all representable, is unmapped. */
  lemma UnmappedWhenAllPass(image: seq<byte>, table: seq<byte>, rva: u32, size: u32)
    requires rva + size <= U32_MAX && AllPass(table, rva, size, 0, Disk.SectionCount(table))
    ensures Disk.Translate(image, table, rva, size) == Err(Unmapped)
  {
    PassingGoesOn(image, table, rva, size, 0, Disk.SectionCount(table));
  }

  lemma {:induction false} FirstNotPassing(table: seq<byte>, rva: u32, size: u32, from: nat) returns (k: nat)
    requires from <= Disk.SectionCount(table)
    ensures from <= k <= Disk.SectionCount(table) && AllPass(table, rva, size, from, k)
    ensures k < Disk.SectionCount(table) ==> !Passes(table, rva, size, k)
    decreases Disk.SectionCount(table) - from
  {
    if from == Disk.SectionCount(table) || !Passes(table, rva, size, from) {
      k := from;
    } else {
      k := FirstNotPassing(table, rva, size, from + 1);
    }
  }

  /** Section `k` is the first that does not pass, and backs the range at this offset. */
  ghost predicate FoundAt(image: seq<byte>, table: seq<byte>, rva: u32, size: u32, k: nat, offset: nat) {
    && k < Disk.SectionCount(table)
    && AllPass(table, rva, size, 0, k) && SectionEnd(Disk.SectionAt(table, k)) <= U32_MAX
    && Disk.BackedAt(image, table, rva, size, k, offset) && offset + size <= U32_MAX
  }

  lemma FoundIsTranslated(image: seq<byte>, table: seq<byte>, rva: u32, size: u32, k: nat, offset: nat)
    requires rva + size <= U32_MAX && FoundAt(image, table, rva, size, k, offset)
    ensures Disk.Translate(image, table, rva, size) == Ok(offset)
  {
    FirstSectionDecides(image, table, rva, size, k);
  }

  /** A translation succeeds with an offset exactly when the first section that does not
      pass backs the range there. */
  lemma TranslationIsExact(image: seq<byte>, table: seq<byte>, rva: u32, size: u32, offset: nat)
    requires rva + size <= U32_MAX
    ensures Disk.Translate(image, table, rva, size) == Ok(offset) <==> exists k :: FoundAt(image, table, rva, size, k, offset)
  {
    var k := FirstNotPassing(table, rva, size, 0);
    if k < Disk.SectionCount(table) {
      FirstSectionDecides(image, table, rva, size, k);
      if Disk.Translate(image, table, rva, size) == Ok(offset) {
        assert FoundAt(image, table, rva, size, k, offset);
      }
    } else {
      UnmappedWhenAllPass(image, table, rva, size);
    }
    if j :| FoundAt(image, table, rva, size, j, offset) {
      FoundIsTranslated(image, table, rva, size, j, offset);
    }
  }

  /** Sections of representable addresses, none of which overlap. */
  ghost predicate Apart(table: seq<byte>) {
    && (forall i :: 0 <= i < Disk.SectionCount(table) ==> SectionEnd(Disk.SectionAt(table, i)) <= U32_MAX)
    && (forall i, j :: 0 <= i < Disk.SectionCount(table) && 0 <= j < Disk.SectionCount(table) && i != j ==>
          || SectionEnd(Disk.SectionAt(table, i)) <= Disk.VirtualAddress(Disk.SectionAt(table, j))
          || SectionEnd(Disk.SectionAt(table, j)) <= Disk.VirtualAddress(Disk.SectionAt(table, i)))
  }

  lemma BackedIsFound(image: seq<byte>, table: seq<byte>, rva: u32, size: u32, k: nat, offset: nat)
    requires Apart(table) && size > 0 && Disk.BackedAt(image, table, rva, size, k, offset) && offset + size <= U32_MAX
    ensures rva + size <= U32_MAX && FoundAt(image, table, rva, size, k, offset)
  {
    assert SectionEnd(Disk.SectionAt(table, k)) <= U32_MAX;
    forall j | 0 <= j < k
      ensures Passes(table, rva, size, j)
    {
      assert SectionEnd(Disk.SectionAt(table, j)) <= U32_MAX;
    }
  }

  /** In such a table it does not matter which section comes first: a nonempty range is
      translated to an offset exactly when some section backs it there. */
  lemma TranslationOfApartSections(image: seq<byte>, table: seq<byte>, rva: u32, size: u32, offset: nat)
    requires Apart(table) && size > 0
    ensures Disk.Translate(image, table, rva, size) == Ok(offset) <==>
              offset + size <= U32_MAX && exists k :: Disk.BackedAt(image, table, rva, size, k, offset)
  {
    if rva + size <= U32_MAX {
      TranslationIsExact(image, table, rva, size, offset);
    }
    if offset + size <= U32_MAX {
      if k :| Disk.BackedAt(image, table, rva, size, k, offset) {
        BackedIsFound(image, table, rva, size, k, offset);
      }
    }
  }

  /** Reading through the section table fails only where translating does. */
  lemma DiskReadExactly(image: seq<byte>, table: seq<byte>, rva: u32, size: u32)
    ensures Disk.ReadRange(image, table, rva, size).Ok? <==> Disk.Translate(image, table, rva, size).Ok?
    ensures Disk.Translate(image, table, rva, size).Ok? ==>
              var offset := Disk.Translate(image, table, rva, size).value;
              offset + size <= |image| && Disk.ReadRange(image, table, rva, size) == Ok(image[offset..offset + size])
  {
    TranslationIsInside(image, table, rva, size);
  }

  lemma TranslationIsInside(image: seq<byte>, table: seq<byte>, rva: u32, size: u32)
    ensures var translation := Disk.Translate(image, table, rva, size);
            translation.Ok? ==> translation.value + size <= |image| && translation.value + size <= USIZE_MAX
  {
    if Disk.Translate(image, table, rva, size).Ok? {
      var offset := Disk.Translate(image, table, rva, size).value;
      TranslationIsExact(image, table, rva, size, offset);
      var k :| FoundAt(image, table, rva, size, k, offset);
    }
  }

  /** A read of the mapped image succeeds exactly in bounds, when it comes back in full. */
  lemma MappedReadExactly(read: Mapped.Reader, rva: u32, size: nat, limit: Option<u32>)
    ensures Mapped.MappedRead(read, rva, size, limit).Ok? <==>
              && rva + size <= U32_MAX && (limit.Some? ==> rva + size <= limit.value)
              && read(rva, size).Ok? && |read(rva, size).value| == size
  {
  }

  // ----- names -----

  /** The name lies at this address, its NUL the first. */
  ghost predicate Stored(fetch: Fetch, rva: u32, name: seq<byte>) {
    && 0 < |name| <= MAX_EXPORT_NAME_SIZE && rva + |name| - 1 <= U32_MAX
    && (forall k: nat :: k < |name| ==> fetch(rva + k) == Ok(name[k]))
    && (forall k: nat :: k < |name| ==> (name[k] == 0 <==> k == |name| - 1))
  }

  lemma {:induction false} StoredNameIsRead(fetch: Fetch, rva: u32, name: seq<byte>, offset: nat)
    requires Stored(fetch, rva, name) && offset < |name|
    ensures NameFrom(fetch, rva, offset) == Ok(name[offset..])
    decreases |name| - offset
  {
    assert fetch(rva + offset) == Ok(name[offset]);
    if offset < |name| - 1 {
      StoredNameIsRead(fetch, rva, name, offset + 1);
      assert name[offset..] == [name[offset]] + name[offset + 1..];
    } else {
      assert name[offset..] == [0];
    }
  }

  lemma {:induction false} ReadNameIsStored(fetch: Fetch, rva: u32, offset: nat)
    requires offset <= MAX_EXPORT_NAME_SIZE && NameFrom(fetch, rva, offset).Ok?
    ensures var name := NameFrom(fetch, rva, offset).value;
            && rva + offset + |name| - 1 <= U32_MAX
            && (forall k: nat :: k < |name| ==> fetch(rva + offset + k) == Ok(name[k]))
            && (forall k: nat :: k < |name| ==> (name[k] == 0 <==> k == |name| - 1))
    decreases MAX_EXPORT_NAME_SIZE - offset
  {
    var value := fetch(rva + offset).value;
    if value != 0 {
      ReadNameIsStored(fetch, rva, offset + 1);
      var rest := NameFrom(fetch, rva, offset + 1).value;
      var name := [value] + rest;
      forall k: nat | k < |name|
        ensures fetch(rva + offset + k) == Ok(name[k]) && (name[k] == 0 <==> k == |name| - 1)
      {
        if k > 0 {
          assert fetch(rva + (offset + 1) + (k - 1)) == Ok(rest[k - 1]);
        }
      }
    }
  }

  lemma ReadIsStored(fetch: Fetch, rva: u32, name: seq<byte>)
    requires NameFrom(fetch, rva, 0) == Ok(name)
    ensures Stored(fetch, rva, name)
  {
    ReadNameIsStored(fetch, rva, 0);
    forall k: nat | k < |name|
      ensures fetch(rva + k) == Ok(name[k])
    {
      assert rva + 0 + k == rva + k;
    }
  }

  lemma StoredIsRead(fetch: Fetch, rva: u32, name: seq<byte>)
    requires Stored(fetch, rva, name)
    ensures NameFrom(fetch, rva, 0) == Ok(name)
  {
    StoredNameIsRead(fetch, rva, name, 0);
    assert name[0..] == name;
  }

  /** A name is read exactly when it is stored there. */
  lemma NameIsExact(fetch: Fetch, rva: u32, name: seq<byte>)
    ensures NameFrom(fetch, rva, 0) == Ok(name) <==> Stored(fetch, rva, name)
  {
    if NameFrom(fetch, rva, 0) == Ok(name) {
      ReadIsStored(fetch, rva, name);
    } else if Stored(fetch, rva, name) {
      StoredIsRead(fetch, rva, name);
    }
  }

  // ----- entries -----

  function LifecycleName(initialize: bool): seq<byte> {
    if initialize then INITIALIZE_EXPORT else SHUTDOWN_EXPORT
  }

  /** An entry means a lifecycle function exactly when it has that name and leads through
      its ordinal to that address, which is neither zero, a forwarder, nor past the
      bound the mapped parser has. */
  lemma EntryIsExact(tables: Tables, fetch: Fetch, limit: Option<u32>, index: nat, initialize: bool, rva: u32)
    requires WellSized(tables) && index < tables.nameCount
    ensures EntryAt(tables, fetch, limit, index) == Ok(if initialize then Initialize(rva) else Shutdown(rva)) <==>
              TableEntry(tables, fetch, index, LifecycleName(initialize), rva) && (limit.Some? ==> rva < limit.value)
  {
    NamesDiffer();
  }

  lemma NamesDiffer()
    ensures INITIALIZE_EXPORT != SHUTDOWN_EXPORT
  {
    assert INITIALIZE_EXPORT[6] != SHUTDOWN_EXPORT[6];
  }

  // ----- the loops -----

  ghost predicate AllOk(entries: Entries, from: nat, to: nat) {
    forall k :: from <= k < to ==> entries(k).Ok?
  }

  /** The file parser's loop gets through exactly when every entry can be resolved. */
  lemma {:induction false} FullScanIsExact(entries: Entries, count: nat, index: nat, picked: Picked)
    requires index <= count
    ensures Scan(entries, count, false, index, picked).Ok? <==> AllOk(entries, index, count)
    decreases count - index
  {
    if index < count {
      if entries(index).Ok? {
        FullScanIsExact(entries, count, index + 1, Pick(picked, entries(index).value));
      } else {
        assert !AllOk(entries, index, count);
      }
    }
  }

  /** The mapped parser's loop, exactly when every entry up to its stop can. */
  lemma {:induction false} EarlyScanIsExact(entries: Entries, count: nat, index: nat)
    requires index <= count && !Both(Bound(entries, index))
    ensures Scan(entries, count, true, index, Bound(entries, index)).Ok? <==> AllOk(entries, index, StopFrom(entries, count, index))
    decreases count - index
  {
    if index < count {
      StopIsLater(entries, count, index);
      if entries(index).Ok? {
        if !Both(Bound(entries, index + 1)) {
          EarlyScanIsExact(entries, count, index + 1);
        }
      } else {
        assert !AllOk(entries, index, StopFrom(entries, count, index));
      }
    }
  }

  lemma StopIsLater(entries: Entries, count: nat, index: nat)
    requires index < count && !Both(Bound(entries, index))
    ensures StopFrom(entries, count, index) == StopFrom(entries, count, index + 1) >= index + 1
    ensures Both(Bound(entries, index + 1)) ==> StopFrom(entries, count, index) == index + 1
  {
  }

  ghost predicate BindsSome(entries: Entries, count: nat, initialize: bool) {
    exists k: nat :: k < count && Binds(entries, initialize, k)
  }

  lemma {:induction false} BoundExactly(entries: Entries, count: nat, initialize: bool)
    ensures Slot(Bound(entries, count), initialize).Some? <==> BindsSome(entries, count, initialize)
    decreases count
  {
    if count > 0 {
      BoundExactly(entries, count - 1, initialize);
      if Binds(entries, initialize, count - 1) {
        assert BindsSome(entries, count, initialize);
      }
    }
  }

  lemma ConcludesExactly(entries: Entries, count: nat, timestamp: u32, sizeOfImage: u32)
    ensures Conclude(Bound(entries, count), timestamp, sizeOfImage).Ok? <==>
              BindsSome(entries, count, true) && BindsSome(entries, count, false)
  {
    BoundExactly(entries, count, true);
    BoundExactly(entries, count, false);
    assert Slot(Bound(entries, count), true) == Bound(entries, count).initialize;
    assert Slot(Bound(entries, count), false) == Bound(entries, count).shutdown;
  }

  /** The file parser accepts an export table exactly when it can be read, every entry
      can be resolved, and both lifecycle names occur. */
  lemma FileAcceptedExactly(image: seq<byte>, headers: Disk.Headers)
    ensures Disk.Exports(image, headers).Ok? <==>
              && Disk.ReadTables(Disk.Ranges(image, headers.sectionTable), headers).Ok?
              && var entries, count := DiskEntries(image, headers), DiskCount(image, headers);
                 AllOk(entries, 0, count) && BindsSome(entries, count, true) && BindsSome(entries, count, false)
    ensures Disk.Exports(image, headers).Ok? ==>
              Disk.Exports(image, headers) ==
              Conclude(Bound(DiskEntries(image, headers), DiskCount(image, headers)), headers.timestamp, headers.sizeOfImage)
  {
    if Disk.ReadTables(Disk.Ranges(image, headers.sectionTable), headers).Ok? {
      var entries, count := DiskEntries(image, headers), DiskCount(image, headers);
      FullScanIsExact(entries, count, 0, NOTHING_PICKED);
      if AllOk(entries, 0, count) {
        FullScanBindsAll(entries, count, 0);
        ConcludesExactly(entries, count, headers.timestamp, headers.sizeOfImage);
      }
    }
  }

  function MappedEntries(read: Mapped.Reader, headers: Mapped.Headers): Entries
    requires Mapped.ReadTables(Mapped.Ranges(read, headers.sizeOfImage), headers).Ok?
  {
    var range := Mapped.Ranges(read, headers.sizeOfImage);
    EntriesOf(Mapped.ReadTables(range, headers).value, FetchOf(range), Some(headers.sizeOfImage))
  }

  /** The mapped parser accepts an export table exactly when it can be read, and the
      entries up to the one by which both names were seen can be resolved. */
  lemma ImageAcceptedExactly(read: Mapped.Reader, headers: Mapped.Headers)
    ensures Mapped.Exports(read, headers).Ok? <==>
              && Mapped.ReadTables(Mapped.Ranges(read, headers.sizeOfImage), headers).Ok?
              && var entries := MappedEntries(read, headers);
                 var count := Mapped.ReadTables(Mapped.Ranges(read, headers.sizeOfImage), headers).value.nameCount;
                 var stop := StopFrom(entries, count, 0);
                 AllOk(entries, 0, stop) && BindsSome(entries, stop, true) && BindsSome(entries, stop, false)
  {
    if Mapped.ReadTables(Mapped.Ranges(read, headers.sizeOfImage), headers).Ok? {
      var entries := MappedEntries(read, headers);
      var count := Mapped.ReadTables(Mapped.Ranges(read, headers.sizeOfImage), headers).value.nameCount;
      var stop := StopFrom(entries, count, 0);
      EarlyScanIsExact(entries, count, 0);
      if AllOk(entries, 0, stop) {
        EarlyScanBindsUpTo(entries, count, 0);
        ConcludesExactly(entries, stop, headers.timestamp, headers.sizeOfImage);
      }
    }
  }

  lemma {:induction false} EarlyScanBindsUpTo(entries: Entries, count: nat, index: nat)
    requires index <= count && !Both(Bound(entries, index))
    requires Scan(entries, count, true, index, Bound(entries, index)).Ok?
    ensures Scan(entries, count, true, index, Bound(entries, index)) == Ok(Bound(entries, StopFrom(entries, count, index)))
    decreases count - index
  {
    if index < count {
      StopIsLater(entries, count, index);
      if !Both(Bound(entries, index + 1)) {
        EarlyScanBindsUpTo(entries, count, index + 1);
      }
    }
  }

  // ----- tables -----

  lemma DiskTablesExactly(range: Range, headers: Disk.Headers)
    requires Exact(range)
    ensures Disk.ReadTables(range, headers).Ok? <==>
              && headers.exportDirectoryRva + headers.exportDirectorySize <= U32_MAX
              && range(headers.exportDirectoryRva, 40).Ok?
              && var d := DirectoryOf(range(headers.exportDirectoryRva, 40).value);
                 && 0 < d.functionCount && 0 < d.nameCount && 4 * d.functionCount <= U32_MAX && 4 * d.nameCount <= U32_MAX
                 && range(d.functions, 4 * d.functionCount).Ok? && range(d.names, 4 * d.nameCount).Ok?
                 && range(d.ordinals, 2 * d.nameCount).Ok?
  {
  }

  lemma MappedTablesExactly(range: Range, headers: Mapped.Headers)
    requires Exact(range)
    ensures Mapped.ReadTables(range, headers).Ok? <==>
              && range(headers.exportDirectoryRva, 40).Ok?
              && var d := DirectoryOf(range(headers.exportDirectoryRva, 40).value);
                 && 0 < d.functionCount <= 4096 && 0 < d.nameCount <= 4096
                 && range(d.functions, 4 * d.functionCount).Ok? && range(d.names, 4 * d.nameCount).Ok?
                 && range(d.ordinals, 2 * d.nameCount).Ok?
  {
  }

  // ----- headers -----

  /** A PE32 optional header with an export directory, and the sections after it. */
  predicate OptionalHeaderFits(image: seq<byte>, pe: nat)
    requires pe + 24 <= |image|
  {
    var sections, size := Word16(image, pe + 6), Word16(image, pe + 20);
    && sections > 0 && size >= 104 && pe + 24 + size + 40 * sections <= |image|
    && Word16(image, pe + 24) == 0x010B
    && 0 < Word32(image, pe + 24 + 56) <= 0x400_0000
    && 0 < Word32(image, pe + 24 + 92)
    && 0 < Word32(image, pe + 24 + 96) && 40 <= Word32(image, pe + 24 + 100)
  }

  /** A library for the i386. */
  predicate IsLibrary(image: seq<byte>) {
    && |image| >= 0x40 && image[0] == 0x4D && image[1] == 0x5A
    && var pe := Word32(image, 0x3C);
       && pe + 24 <= |image| && image[pe..pe + 4] == [0x50, 0x45, 0, 0]
       && Word16(image, pe + 4) == 0x014C && Word16(image, pe + 22) / 0x2000 % 2 == 1
       && OptionalHeaderFits(image, pe)
  }

  function HeadersAt(image: seq<byte>, pe: nat, timestamp: u32): Disk.Headers
    requires pe + 24 <= |image| && OptionalHeaderFits(image, pe)
  {
    var sections, size := Word16(image, pe + 6), Word16(image, pe + 20);
    Disk.Headers(image[pe + 24 + size..pe + 24 + size + 40 * sections], Word32(image, pe + 24 + 96), Word32(image, pe + 24 + 100),
                 timestamp, Word32(image, pe + 24 + 56))
  }

  function LibraryHeaders(image: seq<byte>): Disk.Headers
    requires IsLibrary(image)
  {
    HeadersAt(image, Word32(image, 0x3C), Word32(image, Word32(image, 0x3C) + 8))
  }

  lemma SignaturesParse(image: seq<byte>, pe: u32)
    requires 0x40 <= |image| <= USIZE_MAX && image[0] == 0x4D && image[1] == 0x5A && Word32(image, 0x3C) == pe
    requires pe + 24 <= |image| && image[pe..pe + 4] == [0x50, 0x45, 0, 0]
    requires Word16(image, pe + 4) == 0x014C && Word16(image, pe + 22) / 0x2000 % 2 == 1
    ensures Disk.ParseHeaders(image) == Disk.ParseOptionalHeader(image, pe + 4, Word32(image, pe + 8))
  {
    assert image[0..2] == [0x4D, 0x5A];
    assert U32At(image, 0x3C) == Ok(pe) && SliceAt(image, pe, 4) == Ok(image[pe..pe + 4]);
    assert U16At(image, pe + 4) == Ok(PE_MACHINE_I386) && U32At(image, pe + 8) == Ok(Word32(image, pe + 8));
    assert U16At(image, pe + 22) == Ok(Word16(image, pe + 22));
  }

  lemma WordsOfOptional(image: seq<byte>, start: nat, size: nat, at: nat)
    requires at + 4 <= size && start + size <= |image|
    ensures Word32(image[start..start + size], at) == Word32(image, start + at)
    ensures Word16(image[start..start + size], at) == Word16(image, start + at)
  {
  }

  lemma OptionalWords(image: seq<byte>, pe: nat)
    requires pe + 24 + Word16At20(image, pe) <= |image| && Word16At20(image, pe) >= 104
    ensures var size := Word16At20(image, pe);
            var optional := image[pe + 24..pe + 24 + size];
            && Word16(optional, 0) == Word16(image, pe + 24)
            && Word32(optional, 56) == Word32(image, pe + 24 + 56) && Word32(optional, 92) == Word32(image, pe + 24 + 92)
            && Word32(optional, 96) == Word32(image, pe + 24 + 96) && Word32(optional, 100) == Word32(image, pe + 24 + 100)
  {
    var size := Word16At20(image, pe);
    WordsOfOptional(image, pe + 24, size, 0);
    WordsOfOptional(image, pe + 24, size, 56);
    WordsOfOptional(image, pe + 24, size, 92);
    WordsOfOptional(image, pe + 24, size, 96);
    WordsOfOptional(image, pe + 24, size, 100);
  }

  /** The size field of the optional header, where there is room for it. */
  function Word16At20(image: seq<byte>, pe: nat): nat {
    if pe + 24 <= |image| then Word16(image, pe + 20) else 0
  }

  lemma FittingIsParsed(image: seq<byte>, pe: nat, timestamp: u32)
    requires |image| <= USIZE_MAX && pe + 24 <= |image| && OptionalHeaderFits(image, pe)
    ensures Disk.ParseOptionalHeader(image, pe + 4, timestamp) == Ok(HeadersAt(image, pe, timestamp))
  {
    var size := Word16(image, pe + 20);
    OptionalWords(image, pe);
    GivenWordsParse(image, pe, timestamp, Word16(image, pe + 6), size, image[pe + 24..pe + 24 + size],
                    Word32(image, pe + 24 + 56), Word32(image, pe + 24 + 92), Word32(image, pe + 24 + 96),
                    Word32(image, pe + 24 + 100));
  }

  /** Given the words of a header that fits, it is parsed to these fields. */
  lemma GivenWordsParse(image: seq<byte>, pe: nat, timestamp: u32, sections: u16, size: u16, optional: seq<byte>,
                        imageSize: u32, directories: u32, rva: u32, exportSize: u32)
    requires pe + 24 + size + 40 * sections <= |image| <= USIZE_MAX && sections > 0 && size >= 104
    requires Word16(image, pe + 6) == sections && Word16(image, pe + 20) == size
    requires optional == image[pe + 24..pe + 24 + size] && Word16(optional, 0) == 0x010B
    requires Word32(optional, 56) == imageSize && Word32(optional, 92) == directories
    requires Word32(optional, 96) == rva && Word32(optional, 100) == exportSize
    requires 0 < imageSize <= 0x400_0000 && 0 < directories && 0 < rva && 40 <= exportSize
    ensures Disk.ParseOptionalHeader(image, pe + 4, timestamp) ==
            Ok(Disk.Headers(image[pe + 24 + size..pe + 24 + size + 40 * sections], rva, exportSize, timestamp, imageSize))
  {
  }

  lemma ParsedFits(image: seq<byte>, pe: nat, timestamp: u32)
    requires pe + 24 <= |image| && Disk.ParseOptionalHeader(image, pe + 4, timestamp).Ok?
    ensures OptionalHeaderFits(image, pe)
  {
    DiskOptionalFields(image, pe, timestamp);
    OptionalWords(image, pe);
  }

  lemma ParsedIsLibrary(image: seq<byte>)
    requires Disk.ParseHeaders(image).Ok?
    ensures IsLibrary(image)
  {
    DiskCoffHeader(image);
    ParsedSignatures(image);
    ParsedFits(image, Word32(image, 0x3C), Word32(image, Word32(image, 0x3C) + 8));
  }

  lemma ParsedSignatures(image: seq<byte>)
    requires Disk.ParseHeaders(image).Ok?
    ensures |image| >= 0x40 && image[0] == 0x4D && image[1] == 0x5A
    ensures var pe := Word32(image, 0x3C);
            && pe + 24 <= |image| && image[pe..pe + 4] == [0x50, 0x45, 0, 0]
            && Word16(image, pe + 4) == 0x014C && Word16(image, pe + 22) / 0x2000 % 2 == 1
  {
    ParsedMarks(image);
    ParsedMachine(image);
  }

  lemma ParsedMarks(image: seq<byte>)
    requires Disk.ParseHeaders(image).Ok?
    ensures |image| >= 0x40 && image[0] == 0x4D && image[1] == 0x5A
    ensures var pe := Word32(image, 0x3C); pe + 4 <= |image| && image[pe..pe + 4] == [0x50, 0x45, 0, 0]
  {
    assert image[0..2] == [0x4D, 0x5A];
  }

  lemma ParsedMachine(image: seq<byte>)
    requires Disk.ParseHeaders(image).Ok?
    ensures |image| >= 0x40
    ensures var pe := Word32(image, 0x3C);
            && pe + 24 <= |image| && Word16(image, pe + 4) == 0x014C && Word16(image, pe + 22) / 0x2000 % 2 == 1
  {
  }

  lemma LibraryIsParsed(image: seq<byte>)
    requires IsLibrary(image) && |image| <= USIZE_MAX
    ensures Disk.ParseHeaders(image) == Ok(LibraryHeaders(image))
  {
    var pe := Word32(image, 0x3C);
    SignaturesParse(image, pe);
    FittingIsParsed(image, pe, Word32(image, pe + 8));
  }

  /** The file parser accepts the headers of exactly these files, and reads these fields. */
  lemma HeadersAcceptedExactly(image: seq<byte>)
    requires |image| <= USIZE_MAX
    ensures Disk.ParseHeaders(image).Ok? <==> IsLibrary(image)
    ensures IsLibrary(image) ==> Disk.ParseHeaders(image) == Ok(LibraryHeaders(image))
  {
    if IsLibrary(image) {
      LibraryIsParsed(image);
    } else if Disk.ParseHeaders(image).Ok? {
      ParsedIsLibrary(image);
    }
  }

  /** A read that comes back in full. */
  predicate Shows(read: Mapped.Reader, rva: nat, size: nat) {
    rva + size <= U32_MAX && read(rva, size).Ok? && |read(rva, size).value| == size
  }

  /** What the mapped parser wants of an image's headers. */
  predicate ShowsLibrary(read: Mapped.Reader) {
    && Shows(read, 0, 0x40)
    && var dos := read(0, 0x40).value;
       && dos[0] == 0x4D && dos[1] == 0x5A && Word32(dos, 0x3C) <= 0x10_0000 && Shows(read, Word32(dos, 0x3C), 24)
       && var pe, coff := Word32(dos, 0x3C), read(Word32(dos, 0x3C), 24).value;
          && coff[0..4] == [0x50, 0x45, 0, 0] && Word16(coff, 4) == 0x014C && Word16(coff, 22) / 0x2000 % 2 == 1
          && 104 <= Word16(coff, 20) <= 4096 && Shows(read, pe + 24, Word16(coff, 20))
          && var optional := read(pe + 24, Word16(coff, 20)).value;
             && Word16(optional, 0) == 0x010B
             && 0 < Word32(optional, 56) <= 0x400_0000 && 0 < Word32(optional, 92)
             && 0 < Word32(optional, 96) && 40 <= Word32(optional, 100)
             && Word32(optional, 96) + Word32(optional, 100) <= Word32(optional, 56)
  }

  /** The mapped parser accepts the headers of exactly these images. */
  lemma MappedHeadersAcceptedExactly(read: Mapped.Reader)
    ensures Mapped.ReadHeaders(read).Ok? <==> ShowsLibrary(read)
  {
    if Shows(read, 0, 0x40) {
      var dos := read(0, 0x40).value;
      assert dos[0..2] == [0x4D, 0x5A] <==> dos[0] == 0x4D && dos[1] == 0x5A;
    }
  }
}
