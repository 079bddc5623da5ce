/** elfloader_read as it is written: parse, size, rebase in place, copy (elf_loader/elfloader.c). */
module ElfLoader {
  import opened ElfFile
  import opened ElfImage
  import opened Options

  /** The check of the magic. It stops at the end of the file, but the cursor does not. */
  method ReadMagic(seek: Seek) returns (ok: bool)
    requires seek.idx == 0
    modifies seek
    ensures ok <==> seek.data <= MAGIC || MAGIC <= seek.data
    ensures seek.idx == if ok then 4 else 0
    ensures seek.idx > |seek.data| <==> EndsInMagic(seek.data)
  {
    ok := seek.Expect(MAGIC);
    ghost var n := if |seek.data| < 4 then |seek.data| else 4;
    if ok { assert seek.data[..n] == MAGIC[..n]; }
    if seek.data <= MAGIC || MAGIC <= seek.data { assert seek.data[..n] == MAGIC[..n]; }
  }

  /** A file that ends inside the magic: the check passes, and the next byte would be read outside the file. */
  method TruncatedMagic() returns (size: nat, idx: nat)
    ensures size == 2 && idx == 4
  {
    var seek := new Seek([0x7f, 0x45]);
    var ok := ReadMagic(seek);
    return |seek.data|, seek.idx;
  }

  method ReadIdentification(seek: Seek) returns (r: Option<Error>)
    requires seek.idx == 0 && !EndsInMagic(seek.data)
    modifies seek
    ensures r.Some? ==> HeaderOf(seek.data) == Err(r.value)
    ensures r.None? ==> |seek.data| > 6 && MAGIC + [2, 1, 1] <= seek.data && ByteAt(seek.data, 7) == 0
    ensures r.None? ==> seek.idx == if |seek.data| < 9 then |seek.data| else 9
  {
    var ok := ReadMagic(seek);
    if !ok { assert |seek.data| < 4 || seek.data[..4] != MAGIC; return Some(BadMagic); }
    assert 4 <= |seek.data| && seek.data[..4] == MAGIC;
    var bitness := seek.ReadByte();
    if bitness == 1 { return Some(Is32Bit); } else if bitness != 2 { return Some(BadBitness); }
    var endianness := seek.ReadByte();
    if endianness == 2 { return Some(IsBigEndian); } else if endianness != 1 { return Some(BadEndianness); }
    var version := seek.ReadByte();
    if version != 1 { return Some(BadVersion); }
    var abi := seek.ReadByte();
    if abi != 0 { return Some(BadAbi); }
    assert seek.data[..7] == seek.data[..4] + [2, 1, 1];
    var abiversion := seek.ReadByte();
    return None;
  }

  method ReadHeader(seek: Seek) returns (r: Result<Header>)
    requires seek.idx == 0 && !EndsInMagic(seek.data) && |seek.data| < U64
    modifies seek
    ensures r == HeaderOf(seek.data)
  {
    var e := ReadIdentification(seek);
    if e.Some? { return Err(e.value); }
    assert seek.data[..4] == seek.data[..7][..4] && MAGIC == (MAGIC + [2, 1, 1])[..4];
    assert seek.data[4] == seek.data[..7][4] && seek.data[5] == seek.data[..7][5] && seek.data[6] == seek.data[..7][6];
    seek.SkipBytes(7);
    var kind := seek.ReadNumber(2);
    if kind != 2 { return Err(BadType); }
    var machine := seek.ReadNumber(2);
    if machine != 0x3e { return Err(BadMachine); }
    var version2 := seek.ReadNumber(4);
    if version2 != 1 { return Err(BadVersion2); }
    var entrypoint := seek.ReadNumber(8);
    var program_header_offset := seek.ReadNumber(8);
    var section_header_offset := seek.ReadNumber(8);
    var flags := seek.ReadNumber(4);
    var header_size := seek.ReadNumber(2);
    var entry_size := seek.ReadNumber(2);
    var program_header_entries := seek.ReadNumber(2);
    var section_entry_size := seek.ReadNumber(2);
    var section_entries := seek.ReadNumber(2);
    var section_names := seek.ReadNumber(2);
    return Ok(Header(entrypoint, program_header_offset, program_header_entries));
  }

  method ReadEntry(seek: Seek) returns (o: Option<ProgramHeader>)
    requires 8 <= |seek.data| < U64
    modifies seek
    ensures o == EntryAt(seek.data, old(seek.idx)) && seek.idx == AfterEntry(seek.data, old(seek.idx))
  {
    var kind := seek.ReadNumber(4);
    if kind != 1 {
      seek.SkipBytes(0x38 - 0x4);
      return None;
    }
    var flags := seek.ReadNumber(4);
    var offset := seek.ReadNumber(8);
    var v_address := seek.ReadNumber(8);
    var p_address := seek.ReadNumber(8);
    var file_size := seek.ReadNumber(8);
    var mem_size := seek.ReadNumber(8);
    var align := seek.ReadNumber(8);
    return Some(ProgramHeader(offset, v_address, file_size, mem_size, align));
  }

  lemma {:induction false} LoadableAppend(t: seq<Option<ProgramHeader>>, o: Option<ProgramHeader>)
    ensures Loadable(t + [o]) == Loadable(t) + (if o.Some? then [o.value] else [])
  {
    if t == [] {
      assert [o][1..] == [];
    } else {
      LoadableAppend(t[1..], o);
      assert (t + [o])[1..] == t[1..] + [o];
    }
  }

  /** The first entries are stored in their slots, the remaining slots are still zero. */
  ghost predicate Stored(headers: seq<ProgramHeader>, t: seq<Option<ProgramHeader>>) {
    && |t| <= |headers|
    && headers[..|t|] == Slots(t)
    && forall k :: |t| <= k < |headers| ==> headers[k] == NO_HEADER
  }

  /** What one iteration of the table loop does with the entry it read. */
  method StoreEntry(headers: array<ProgramHeader>, i: nat, o: Option<ProgramHeader>,
                    ghost t: seq<Option<ProgramHeader>>)
    returns (n: nat)
    requires i == |t| < headers.Length && Stored(headers[..], t)
    modifies headers
    ensures Stored(headers[..], t + [o]) && |Loadable(t + [o])| == |Loadable(t)| + n
  {
    LoadableAppend(t, o);
    if o.Some? {
      headers[i] := o.value;
      n := 1;
    } else {
      n := 0;
    }
    ghost var s := headers[..];
    assert forall k :: 0 <= k < i ==> s[k] == old(headers[..i])[k];
    assert s[..i + 1] == Slots(t + [o]);
  }

  /** The table loop: entry i goes to slot i, the number of PT_LOAD entries is counted. */
  method ReadTable(seek: Seek, headers: array<ProgramHeader>, start: nat, n: nat) returns (num_loader_headers: nat)
    requires 8 <= |seek.data| < U64 && headers.Length == MAX_PROGRAM_HEADERS && n <= MAX_PROGRAM_HEADERS
    requires forall i :: 0 <= i < headers.Length ==> headers[i] == NO_HEADER
    modifies seek, headers
    ensures headers[..n] == Slots(Table(seek.data, start, n))
    ensures num_loader_headers == |Loadable(Table(seek.data, start, n))|
  {
    seek.idx := start;
    num_loader_headers := 0;
    ghost var t := [];
    for i := 0 to n
      invariant seek.idx == CursorAt(seek.data, start, i) && t == Table(seek.data, start, i)
      invariant num_loader_headers == |Loadable(t)| && Stored(headers[..], t)
    {
      var o := ReadEntry(seek);
      var one := StoreEntry(headers, i, o, t);
      num_loader_headers := num_loader_headers + one;
      t := t + [o];
    }
  }

  method FindMinAddress(headers: array<ProgramHeader>, n: nat) returns (min_vaddr: nat)
    requires n <= headers.Length
    ensures min_vaddr == MinAddress(headers[..n])
    ensures forall k :: 0 <= k < n ==> min_vaddr <= headers[k].v_address
  {
    min_vaddr := 0xffff_ffff_ffff_ffff;
    for i := 0 to n
      invariant min_vaddr == MinAddress(headers[..i])
    {
      assert headers[..i + 1][..i] == headers[..i];
      if headers[i].v_address < min_vaddr {
        min_vaddr := headers[i].v_address;
      }
    }
  }

  method RebaseInPlace(headers: array<ProgramHeader>, n: nat, min_vaddr: nat)
    requires n <= headers.Length && forall k :: 0 <= k < n ==> min_vaddr <= headers[k].v_address
    modifies headers
    ensures headers[..n] == Rebased(old(headers[..n]), min_vaddr)
  {
    for i := 0 to n
      invariant forall k :: 0 <= k < i ==>
        headers[k] == old(headers[k]).(v_address := old(headers[k]).v_address - min_vaddr)
      invariant forall k :: i <= k < headers.Length ==> headers[k] == old(headers[k])
    {
      headers[i] := headers[i].(v_address := headers[i].v_address - min_vaddr);
    }
  }

  method ComputeSize(headers: array<ProgramHeader>, n: nat) returns (new_memory_size: nat)
    requires n <= headers.Length
    ensures new_memory_size == MemorySize(headers[..n])
  {
    new_memory_size := 0;
    for i := 0 to n
      invariant new_memory_size == MemorySize(headers[..i])
    {
      assert headers[..i + 1][..i] == headers[..i];
      var end := (headers[i].v_address + headers[i].mem_size) % U64;
      if end > new_memory_size {
        new_memory_size := end;
      }
    }
  }

  /** The table, with every address relative to the smallest one. */
  method RebasedHeaders(seek: Seek, h: Header, ghost segs: seq<ProgramHeader>)
    returns (headers: array<ProgramHeader>, n: nat, min_vaddr: nat)
    requires 8 <= |seek.data| < U64 && h.programHeaderEntries <= MAX_PROGRAM_HEADERS && segs == Segments(seek.data, h)
    modifies seek
    ensures fresh(headers) && n <= headers.Length && headers[..n] == Image(segs) && min_vaddr == MinAddress(segs)
  {
    headers := new ProgramHeader[MAX_PROGRAM_HEADERS](_ => NO_HEADER);
    n := ReadTable(seek, headers, h.programHeaderOffset, h.programHeaderEntries);
    assert headers[..n] == headers[..h.programHeaderEntries][..n];
    min_vaddr := FindMinAddress(headers, n);
    RebaseInPlace(headers, n, min_vaddr);
  }

  class Loader {
    const Ram: array<u8>   // all memory, indexed by address

    constructor (ram: array<u8>)
      ensures Ram == ram
    {
      Ram := ram;
    }

    method MemCpy(dest: nat, data: seq<u8>, src: nat, n: nat)
      requires dest + n <= Ram.Length && src + n <= |data|
      modifies Ram
      ensures forall a :: 0 <= a < Ram.Length ==>
        Ram[a] == if dest <= a < dest + n then data[src + (a - dest)] else old(Ram[a])
    {
      for i := 0 to n
        invariant forall a :: 0 <= a < Ram.Length ==>
          Ram[a] == if dest <= a < dest + i then data[src + (a - dest)] else old(Ram[a])
      {
        Ram[dest + i] := data[src + i];
      }
    }

    method MemSet(dest: nat, byte: u8, n: nat)
      requires dest + n <= Ram.Length
      modifies Ram
      ensures forall a :: 0 <= a < Ram.Length ==> Ram[a] == if dest <= a < dest + n then byte else old(Ram[a])
    {
      for i := 0 to n
        invariant forall a :: 0 <= a < Ram.Length ==> Ram[a] == if dest <= a < dest + i then byte else old(Ram[a])
      {
        Ram[dest + i] := byte;
      }
    }

    /** One iteration of the loading loop. */
    method LoadSegment(data: seq<u8>, memory_base: nat, h: ProgramHeader)
      requires Ram.Length < U64 && Fits(h, memory_base, Ram.Length, |data|)
      modifies Ram
      ensures forall a :: 0 <= a < Ram.Length ==>
                Ram[a] == if Owns(h, memory_base, a) then ByteOf(h, memory_base, data, a) else old(Ram[a])
      ensures var start := memory_base + h.v_address;
        forall a :: 0 <= a < Ram.Length ==>
          Ram[a] == if start <= a < start + h.file_size then data[h.offset + (a - start)]
                    else if start + h.file_size <= a < start + h.mem_size then 0
                    else old(Ram[a])
    {
      var dest := (memory_base + h.v_address) % U64;
      MemCpy(dest, data, h.offset, h.file_size);
      if h.file_size < h.mem_size {
        MemSet(dest + h.file_size, 0, h.mem_size - h.file_size);
      }
    }

    method LoadAll(data: seq<u8>, memory_base: nat, headers: array<ProgramHeader>, n: nat)
      requires n <= headers.Length && Ram.Length < U64 && AllFit(headers[..n], memory_base, Ram.Length, |data|)
      modifies Ram
      ensures forall a :: 0 <= a < Ram.Length ==>
                Ram[a] == LoadedByte(headers[..n], memory_base, data, old(Ram[..]), a)
    {
      ghost var mem := Ram[..];
      for i := 0 to n
        invariant forall a :: 0 <= a < Ram.Length ==> Ram[a] == LoadedByte(headers[..i], memory_base, data, mem, a)
      {
        assert headers[..i + 1][..i] == headers[..i];
        LoadSegment(data, memory_base, headers[i]);
      }
    }

    /** The part of elfloader_read after the file header. */
    method SizeAndLoad(seek: Seek, h: Header, memory_base: nat, memory_size: nat, ghost segs: seq<ProgramHeader>)
      returns (r: Outcome)
      requires 8 <= |seek.data| < U64 && Ram.Length < U64 && h.programHeaderEntries <= MAX_PROGRAM_HEADERS
      requires segs == Segments(seek.data, h)
      requires memory_base != 0 && MemorySize(Image(segs)) <= memory_size ==>
        AllFit(Image(segs), memory_base, Ram.Length, |seek.data|)
      modifies seek, Ram
      ensures r == Sized(h.entrypoint, segs, memory_base, memory_size)
      ensures if memory_base != 0 && r.error.Ok? then
          forall a :: 0 <= a < Ram.Length ==> Ram[a] == LoadedByte(Image(segs), memory_base, seek.data, old(Ram[..]), a)
        else Ram[..] == old(Ram[..])
    {
      var headers, n, min_vaddr := RebasedHeaders(seek, h, segs);
      var entrypoint := (h.entrypoint - min_vaddr) % U64;
      var new_memory_size := ComputeSize(headers, n);
      SizedIs(h.entrypoint, segs, memory_base, memory_size, entrypoint, new_memory_size);
      if memory_base == 0 { return Outcome(Ok(()), new_memory_size, entrypoint); }
      if memory_size < new_memory_size { return Outcome(Err(MemoryTooSmall), new_memory_size, entrypoint); }
      LoadAll(seek.data, memory_base, headers, n);
      entrypoint := (entrypoint + memory_base) % U64;
      return Outcome(Ok(()), new_memory_size, entrypoint);
    }

    /** Base 0 asks for the size only. A call that loads needs every segment inside the file
        and inside memory: the loader itself checks neither. */
    method elfloader_read(data: seq<u8>, memory_base: nat, memory_size: nat) returns (r: Outcome)
      requires !EndsInMagic(data) && |data| < U64 && Ram.Length < U64
      requires memory_base != 0 && Read(data, memory_base, memory_size).error.Ok? ==>
        AllFit(Loaded(data), memory_base, Ram.Length, |data|)
      modifies Ram
      ensures r == Read(data, memory_base, memory_size)
      ensures if memory_base != 0 && r.error.Ok? then
          forall a :: 0 <= a < Ram.Length ==>
            Ram[a] == LoadedByte(Loaded(data), memory_base, data, old(Ram[..]), a)
        else Ram[..] == old(Ram[..])
    {
      var seek := new Seek(data);
      var header := ReadHeader(seek);
      if |data| <= 16 { ShortIsRejected(data); }
      if header.Err? { return Outcome(Err(header.error), 0, 0); }
      var h := header.value;
      if h.programHeaderEntries > MAX_PROGRAM_HEADERS { return Outcome(Err(TooManyHeaders), 0, h.entrypoint); }
      r := SizeAndLoad(seek, h, memory_base, memory_size, Segments(data, h));
    }

    /** LoadElf: size, allocate, load. A file whose segments lie in the file, have no more file
        bytes than memory bytes and do not wrap is loaded without a second error, into the
        allocated range alone. */
    method LoadElf(data: seq<u8>, MemoryBase: nat) returns (loaded: bool, r: Outcome)
      requires !EndsInMagic(data) && |data| < U64 && Ram.Length < U64 && MemoryBase != 0
      requires Read(data, 0, 0).error.Ok? ==>
        && MemoryBase + Read(data, 0, 0).memory_size <= Ram.Length
        && Sound(Loaded(data), |data|)
      modifies Ram
      ensures loaded <==> Read(data, 0, 0).error.Ok?
      ensures loaded ==> r.error.Ok? && r.entrypoint == (Read(data, 0, 0).entrypoint + MemoryBase) % U64
      ensures loaded ==> forall a :: 0 <= a < Ram.Length ==>
        Ram[a] == LoadedByte(Loaded(data), MemoryBase, data, old(Ram[..]), a)
      ensures loaded ==> forall a :: 0 <= a < Ram.Length && !(MemoryBase <= a < MemoryBase + r.memory_size) ==>
        Ram[a] == old(Ram[a])
      ensures loaded ==> HeaderOf(data).Ok?
      ensures loaded && WellFormed(data, HeaderOf(data).value, MemoryBase) ==>
        InMemory(data, HeaderOf(data).value, MemoryBase, Ram[..])
    {
      r := elfloader_read(data, 0, 0);
      if r.error.Err? { return false, r; }
      ghost var mem := Ram[..];
      var size := r.memory_size;
      TwoPassesAgree(data, MemoryBase, size);
      SoundSegmentsFit(Loaded(data), MemoryBase, Ram.Length, |data|);
      r := elfloader_read(data, MemoryBase, size);
      forall a | 0 <= a < Ram.Length && !(MemoryBase <= a < MemoryBase + size) ensures Ram[a] == mem[a] {
        OutsideIsUntouched(Loaded(data), MemoryBase, data, mem, a);
      }
      ghost var h := HeaderOf(data).value;
      if WellFormed(data, h, MemoryBase) { LoadedIsInMemory(data, h, MemoryBase, mem, Ram[..]); }
      loaded := true;
    }
  }

  /** Byte i of the segment that entry k of the file's table describes is where it belongs. */
  ghost predicate ByteInMemory(data: seq<u8>, h: Header, base: nat, ram: seq<u8>, k: nat, i: nat)
    requires h.programHeaderOffset + 56 * h.programHeaderEntries < |data| && k < h.programHeaderEntries
  {
    match TableEntry(data, h, k)
    case None => true
    case Some(s) =>
      i < s.mem_size ==>
        var a := Target(Segments(data, h), base, s, i);
        0 <= a < |ram| && s.offset + s.file_size <= |data| && ram[a] == FileByte(data, s, i)
  }

  /** Every segment of the file's table is in memory: its file bytes, then zeros. */
  ghost predicate InMemory(data: seq<u8>, h: Header, base: nat, ram: seq<u8>)
    requires h.programHeaderOffset + 56 * h.programHeaderEntries < |data|
  {
    forall k: nat, i: nat :: k < h.programHeaderEntries ==> ByteInMemory(data, h, base, ram, k, i)
  }

  /** Byte by byte: what the table in the file says about the bytes of memory. */
  lemma InMemoryBytes(data: seq<u8>, h: Header, base: nat, ram: seq<u8>, k: nat, i: nat)
    requires h.programHeaderOffset + 56 * h.programHeaderEntries < |data| && k < h.programHeaderEntries
    requires InMemory(data, h, base, ram)
    ensures var p := h.programHeaderOffset + 56 * k;
      match DecodeEntry(data[p..p + 56])
      case None => true
      case Some(s) =>
        i < s.mem_size ==>
          var a := base + (s.v_address - MinAddress(Segments(data, h))) + i;
          && 0 <= a < |ram| && (i < s.file_size ==> s.offset + i < |data| && ram[a] == data[s.offset + i])
          && (i >= s.file_size ==> ram[a] == 0)
  {
    assert ByteInMemory(data, h, base, ram, k, i);
  }

  lemma LoadedIsInMemory(data: seq<u8>, h: Header, base: nat, mem: seq<u8>, ram: seq<u8>)
    requires WellFormed(data, h, base) && |ram| == |mem|
    requires Sound(Image(Segments(data, h)), |data|) && base + MemorySize(Image(Segments(data, h))) <= |ram|
    requires forall a :: 0 <= a < |ram| ==> ram[a] == LoadedByte(Image(Segments(data, h)), base, data, mem, a)
    ensures InMemory(data, h, base, ram)
  {
    forall k: nat, i: nat | k < h.programHeaderEntries ensures ByteInMemory(data, h, base, ram, k, i) {
      if TableEntry(data, h, k).Some? && i < TableEntry(data, h, k).value.mem_size {
        SegmentsAreTable(data, h, k);
        SegmentInMemory(Segments(data, h), base, data, mem, k, i);
      }
    }
  }

  lemma SegmentInMemory(segs: seq<ProgramHeader>, base: nat, data: seq<u8>, mem: seq<u8>, k: nat, i: nat)
    requires k < |segs| && i < segs[k].mem_size && Disjoint(Image(segs), base)
    requires Sound(Image(segs), |data|) && base + MemorySize(Image(segs)) <= |mem|
    ensures var a := Target(segs, base, segs[k], i);
      && 0 <= a < |mem| && segs[k].offset + segs[k].file_size <= |data|
      && LoadedByte(Image(segs), base, data, mem, a) == FileByte(data, segs[k], i)
  {
    var g := Image(segs)[k];
    assert End(g) <= MemorySize(Image(segs));
    assert g.file_size <= g.mem_size && g.offset + g.file_size <= |data|;
    SegmentByte(segs, base, data, mem, k, i);
  }

  ghost predicate Sound(segs: seq<ProgramHeader>, file: nat) {
    forall k :: 0 <= k < |segs| ==>
      && segs[k].file_size <= segs[k].mem_size && segs[k].v_address + segs[k].mem_size < U64
      && segs[k].offset + segs[k].file_size <= file
  }

  lemma SoundSegmentsFit(segs: seq<ProgramHeader>, base: nat, memory: nat, file: nat)
    requires Sound(segs, file) && base + MemorySize(segs) <= memory
    ensures AllFit(segs, base, memory, file)
  {
    forall k | 0 <= k < |segs| ensures Fits(segs[k], base, memory, file) { assert End(segs[k]) <= MemorySize(segs); }
  }

  lemma {:induction false} OutsideIsUntouched(segs: seq<ProgramHeader>, base: nat, file: seq<u8>, mem: seq<u8>, a: nat)
    requires Sound(segs, |file|) && AllFit(segs, base, |mem|, |file|) && a < |mem|
    requires !(base <= a < base + MemorySize(segs))
    ensures LoadedByte(segs, base, file, mem, a) == mem[a]
  {
    if segs != [] {
      var s := segs[..|segs| - 1];
      assert End(segs[|segs| - 1]) <= MemorySize(segs);
      OutsideIsUntouched(s, base, file, mem, a);
    }
  }
}
