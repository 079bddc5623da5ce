/** The memory image of an ELF64 file: sizing, rebasing and loading its segments
    (elf_loader/elfloader.c), and the two-pass protocol of LoadElf
    (bootloader/uefiboot_libc.c). */
module ElfImage {
  import opened ElfFile
  import opened Options

  // ----- The segments that are loaded -----

  /** Entry k of the table lands in slot k; the other slots are zero. */
  function Slots(t: seq<Option<ProgramHeader>>): (s: seq<ProgramHeader>)
    ensures |s| == |t| && forall k :: 0 <= k < |t| ==> s[k] == (if t[k].Some? then t[k].value else NO_HEADER)
  {
    seq(|t|, k requires 0 <= k < |t| => if t[k].Some? then t[k].value else NO_HEADER)
  }

  /** The PT_LOAD entries, in order. */
  function Loadable(t: seq<Option<ProgramHeader>>): (s: seq<ProgramHeader>)
    ensures |s| <= |t|
  {
    if t == [] then [] else (if t[0].Some? then [t[0].value] else []) + Loadable(t[1..])
  }

  /** As many slots are used as there are PT_LOAD entries, counted from slot 0. */
  function Used(t: seq<Option<ProgramHeader>>): seq<ProgramHeader> {
    Slots(t)[..|Loadable(t)|]
  }

  /** No PT_LOAD entry comes after an entry of another type. */
  ghost predicate LoadsFirst(t: seq<Option<ProgramHeader>>) {
    forall i, j :: 0 <= i < j < |t| && t[j].Some? ==> t[i].Some?
  }

  lemma {:induction false} LoadableOfPrefix(t: seq<Option<ProgramHeader>>)
    requires LoadsFirst(t)
    ensures Loadable(t) == Used(t)
    ensures forall k :: 0 <= k < |t| ==> (t[k].Some? <==> k < |Loadable(t)|)
  {
    if t != [] {
      var u := t[1..];
      assert forall j :: 0 <= j < |u| ==> u[j] == t[j + 1];
      LoadableOfPrefix(u);
      assert forall k :: 0 < k < |t| ==> t[k] == u[k - 1];
      if t[0].None? { assert forall k :: 0 <= k < |u| ==> u[k].None?; }
    }
  }

  lemma {:induction false} LoadableMembers(t: seq<Option<ProgramHeader>>, h: ProgramHeader)
    ensures h in Loadable(t) <==> Some(h) in t
  {
    if t != [] {
      LoadableMembers(t[1..], h);
      assert t == [t[0]] + t[1..];
    }
  }

  /** The loader uses exactly the PT_LOAD entries if and only if they come first, given that
      none of them is all zeros. */
  lemma UsedIffLoadsFirst(t: seq<Option<ProgramHeader>>)
    requires forall k :: 0 <= k < |t| && t[k].Some? ==> t[k].value != NO_HEADER
    ensures Used(t) == Loadable(t) <==> LoadsFirst(t)
  {
    if LoadsFirst(t) {
      LoadableOfPrefix(t);
    } else if Used(t) == Loadable(t) {
      var n := |Loadable(t)|;
      forall k | 0 <= k < n ensures t[k].Some? {
        LoadableMembers(t, Used(t)[k]);
        assert Used(t)[k] in Loadable(t);
      }
      CountPrefix(t, n);
    }
  }

  /** An ordinary PT_PHDR entry, the segment type 6. */
  function PhdrEntry(): seq<u8> { [6, 0, 0, 0] + seq(52, _ => 0) }

  /** Behind a PT_PHDR entry the one PT_LOAD entry of a table is not loaded: an empty header is
      taken in its place. */
  lemma PhdrFirstLosesSegment(h: ProgramHeader)
    requires h != NO_HEADER
    ensures var t := [DecodeEntry(PhdrEntry()), Some(h)];
      h in Loadable(t) && h !in Used(t) && Used(t) == [NO_HEADER]
  {
    var bytes := PhdrEntry()[..4];
    assert bytes == [6, 0, 0, 0];
    assert LittleEndian(bytes) == 6;
    var t := [DecodeEntry(PhdrEntry()), Some(h)];
    assert t[1..] == [Some(h)] && t[1..][1..] == [];
    assert Loadable(t[1..]) == [h];
  }

  lemma {:induction false} CountPrefix(t: seq<Option<ProgramHeader>>, n: nat)
    requires n == |Loadable(t)| && forall k :: 0 <= k < n ==> t[k].Some?
    ensures LoadsFirst(t)
  {
    if t != [] && t[0].Some? {
      var u := t[1..];
      assert forall k :: 0 <= k < |u| ==> u[k] == t[k + 1];
      CountPrefix(u, n - 1);
      forall i, j | 0 <= i < j < |t| && t[j].Some? ensures t[i].Some? {
        if i > 0 { assert u[j - 1].Some? && u[i - 1] == t[i]; }
      }
    } else if n == 0 {
      forall j | 0 <= j < |t| ensures t[j].None? {
        if t[j].Some? { LoadableMembers(t, t[j].value); }
      }
    }
  }

  // ----- Rebasing and sizing -----

  function MinAddress(segs: seq<ProgramHeader>): (m: nat)
    ensures m < U64
    ensures forall k :: 0 <= k < |segs| ==> m <= segs[k].v_address
  {
    if segs == [] then U64 - 1
    else
      var m, v := MinAddress(segs[..|segs| - 1]), segs[|segs| - 1].v_address;
      if v < m then v else m
  }

  /** The minimum is attained, as every address fits eight bytes. */
  lemma {:induction false} MinAddressAttained(segs: seq<ProgramHeader>) returns (k: nat)
    requires segs != [] && forall j :: 0 <= j < |segs| ==> segs[j].v_address < 0x1_0000_0000_0000_0000
    ensures k < |segs| && MinAddress(segs) == segs[k].v_address
  {
    var n := |segs| - 1;
    if segs[..n] == [] {
      k := 0;
    } else {
      k := MinAddressAttained(segs[..n]);
      if segs[n].v_address < MinAddress(segs[..n]) { k := n; }
    }
  }

  function Rebased(segs: seq<ProgramHeader>, m: nat): (r: seq<ProgramHeader>)
    requires forall k :: 0 <= k < |segs| ==> m <= segs[k].v_address
    ensures |r| == |segs|
    ensures forall k :: 0 <= k < |segs| ==> r[k] == segs[k].(v_address := segs[k].v_address - m)
  {
    seq(|segs|, k requires 0 <= k < |segs| => segs[k].(v_address := segs[k].v_address - m))
  }

  function End(h: ProgramHeader): nat { (h.v_address + h.mem_size) % U64 }

  /** An end behind 2^64 comes out too small. */
  lemma EndWraps(h: ProgramHeader)
    requires h.v_address < 0x1_0000_0000_0000_0000 && h.mem_size < 0x1_0000_0000_0000_0000
    ensures h.v_address + h.mem_size < 0x1_0000_0000_0000_0000 ==> End(h) == h.v_address + h.mem_size
    ensures h.v_address + h.mem_size >= 0x1_0000_0000_0000_0000 ==>
      End(h) == h.v_address + h.mem_size - 0x1_0000_0000_0000_0000 < h.v_address
  {
  }

  function MemorySize(segs: seq<ProgramHeader>): (n: nat)
    ensures forall k :: 0 <= k < |segs| ==> End(segs[k]) <= n
  {
    if segs == [] then 0
    else
      var n, e := MemorySize(segs[..|segs| - 1]), End(segs[|segs| - 1]);
      if e > n then e else n
  }

  /** The reported size is the least bound on the segment ends, as computed modulo 2^64. */
  lemma {:induction false} MemorySizeIsLeast(segs: seq<ProgramHeader>, bound: nat)
    requires forall k :: 0 <= k < |segs| ==> End(segs[k]) <= bound
    ensures MemorySize(segs) <= bound
  {
    if segs != [] { MemorySizeIsLeast(segs[..|segs| - 1], bound); }
  }

  // ----- Loading -----

  /** A segment stays inside the file and inside memory. */
  predicate Fits(h: ProgramHeader, base: nat, memory: nat, file: nat) {
    && h.offset + h.file_size <= file
    && base + h.v_address + h.file_size <= memory && base + h.v_address + h.mem_size <= memory
  }

  ghost predicate AllFit(segs: seq<ProgramHeader>, base: nat, memory: nat, file: nat) {
    forall k :: 0 <= k < |segs| ==> Fits(segs[k], base, memory, file)
  }

  /** What the segment says about the byte at an address: file contents, then zeros. */
  predicate Owns(h: ProgramHeader, base: nat, a: int) {
    base + h.v_address <= a < base + h.v_address + (if h.file_size < h.mem_size then h.mem_size else h.file_size)
  }

  function ByteOf(h: ProgramHeader, base: nat, file: seq<u8>, a: nat): u8
    requires Owns(h, base, a)
  {
    var i := a - (base + h.v_address);
    if i < h.file_size && h.offset + i < |file| then file[h.offset + i] else 0
  }

  function LoadedByte(segs: seq<ProgramHeader>, base: nat, file: seq<u8>, mem: seq<u8>, a: nat): u8
    requires a < |mem|
  {
    if segs == [] then mem[a]
    else
      var h := segs[|segs| - 1];
      if Owns(h, base, a) then ByteOf(h, base, file, a) else LoadedByte(segs[..|segs| - 1], base, file, mem, a)
  }

  /** No two segments own a common byte. */
  ghost predicate Disjoint(segs: seq<ProgramHeader>, base: nat) {
    forall i, j, a :: 0 <= i < |segs| && 0 <= j < |segs| && i != j && Owns(segs[i], base, a) ==> !Owns(segs[j], base, a)
  }

  /** With disjoint segments every segment's bytes are its own: the file's at its offset, then zeros.
      All other memory is untouched. */
  lemma ImageBytes(segs: seq<ProgramHeader>, base: nat, file: seq<u8>, mem: seq<u8>, a: nat)
    requires a < |mem| && Disjoint(segs, base)
    requires forall k :: 0 <= k < |segs| ==> segs[k].offset + segs[k].file_size <= |file|
    ensures var b := LoadedByte(segs, base, file, mem, a);
      && (forall k :: 0 <= k < |segs| ==>
            var start := base + segs[k].v_address;
            && (start <= a < start + segs[k].file_size ==> b == file[segs[k].offset + (a - start)])
            && (start + segs[k].file_size <= a < start + segs[k].mem_size ==> b == 0))
      && ((forall k :: 0 <= k < |segs| ==>
            var start := base + segs[k].v_address;
            !(start <= a < start + segs[k].file_size) && !(start <= a < start + segs[k].mem_size)) ==> b == mem[a])
  {
    ImageIsCorrect(segs, base, file, mem, a);
    forall k | 0 <= k < |segs| ensures
      var start, b := base + segs[k].v_address, LoadedByte(segs, base, file, mem, a);
      && (start <= a < start + segs[k].file_size ==> b == file[segs[k].offset + (a - start)])
      && (start + segs[k].file_size <= a < start + segs[k].mem_size ==> b == 0)
    {
      if Owns(segs[k], base, a) { assert LoadedByte(segs, base, file, mem, a) == ByteOf(segs[k], base, file, a); }
    }
  }

  /** With disjoint segments every segment's bytes are its own, and all other memory is untouched. */
  lemma {:induction false} ImageIsCorrect(segs: seq<ProgramHeader>, base: nat, file: seq<u8>, mem: seq<u8>, a: nat)
    requires a < |mem| && Disjoint(segs, base)
    ensures forall k :: 0 <= k < |segs| && Owns(segs[k], base, a) ==>
      LoadedByte(segs, base, file, mem, a) == ByteOf(segs[k], base, file, a)
    ensures (forall k :: 0 <= k < |segs| ==> !Owns(segs[k], base, a)) ==> LoadedByte(segs, base, file, mem, a) == mem[a]
  {
    if segs != [] {
      var s := segs[..|segs| - 1];
      assert Disjoint(s, base) by {
        forall i, j, b: int | 0 <= i < |s| && 0 <= j < |s| && i != j && Owns(s[i], base, b)
          ensures !Owns(s[j], base, b)
        {
          assert Owns(segs[i], base, b);
        }
      }
      ImageIsCorrect(s, base, file, mem, a);
    }
  }

  // ----- The loader -----

  datatype Outcome = Outcome(error: Result<()>, memory_size: nat, entrypoint: nat)

  ghost function Segments(data: seq<u8>, h: Header): seq<ProgramHeader> {
    Used(Table(data, h.programHeaderOffset, h.programHeaderEntries))
  }

  /** The result once the header is accepted: base 0 only asks for the size. */
  function Sized(entrypoint: nat, segs: seq<ProgramHeader>, base: nat, size: nat): Outcome {
    var m := MinAddress(segs);
    var entry := (entrypoint - m) % U64;
    var needed := MemorySize(Rebased(segs, m));
    if base == 0 then Outcome(Ok(()), needed, entry)
    else if size < needed then Outcome(Err(MemoryTooSmall), needed, entry)
    else Outcome(Ok(()), needed, (entry + base) % U64)
  }

  lemma SizedIs(entrypoint: nat, segs: seq<ProgramHeader>, base: nat, size: nat, entry: nat, needed: nat)
    requires entry == (entrypoint - MinAddress(segs)) % U64 && needed == MemorySize(Image(segs))
    ensures Sized(entrypoint, segs, base, size)
         == Outcome(if base != 0 && size < needed then Err(MemoryTooSmall) else Ok(()), needed,
                    if base != 0 && needed <= size then (entry + base) % U64 else entry)
  {
  }

  /** The result of elfloader_read for a parsed header. */
  ghost function ReadWith(data: seq<u8>, h: Result<Header>, base: nat, size: nat): Outcome {
    match h
    case Err(e) => Outcome(Err(e), 0, 0)
    case Ok(h) =>
      if h.programHeaderEntries > MAX_PROGRAM_HEADERS then Outcome(Err(TooManyHeaders), 0, h.entrypoint)
      else Sized(h.entrypoint, Segments(data, h), base, size)
  }

  ghost function Read(data: seq<u8>, base: nat, size: nat): Outcome
    requires !EndsInMagic(data)
  {
    ReadWith(data, HeaderOf(data), base, size)
  }

  /** Everything but the bytes that a call reports. */
  lemma ReadReports(data: seq<u8>, base: nat, size: nat)
    requires !EndsInMagic(data)
    ensures var r := Read(data, base, size);
      match HeaderOf(data)
      case Err(e) => r == Outcome(Err(e), 0, 0)
      case Ok(h) =>
        if h.programHeaderEntries > 32 then r == Outcome(Err(TooManyHeaders), 0, h.entrypoint)
        else
          && (r.error == Err(MemoryTooSmall) <==> base != 0 && size < r.memory_size)
          && (r.error != Err(MemoryTooSmall) ==> r.error == Ok(()))
          && r.memory_size == MemorySize(Image(Segments(data, h)))
  {
  }

  /** The entry point moves with the segments: it is where the byte of the segment that holds it goes. */
  lemma EntryMoves(entrypoint: nat, segs: seq<ProgramHeader>, base: nat, size: nat, k: nat)
    requires k < |segs| && segs[k].v_address <= entrypoint < segs[k].v_address + segs[k].mem_size
    requires base + (entrypoint - MinAddress(segs)) < 0x1_0000_0000_0000_0000
    requires Sized(entrypoint, segs, base, size).error.Ok?
    ensures Sized(entrypoint, segs, base, size).entrypoint
         == base + Image(segs)[k].v_address + (entrypoint - segs[k].v_address)
  {
    SizedEntry(entrypoint, segs, base, size);
  }

  lemma SizedEntry(entrypoint: nat, segs: seq<ProgramHeader>, base: nat, size: nat)
    requires Sized(entrypoint, segs, base, size).error.Ok?
    requires MinAddress(segs) <= entrypoint && base + (entrypoint - MinAddress(segs)) < U64
    ensures Sized(entrypoint, segs, base, size).entrypoint == base + (entrypoint - MinAddress(segs))
  {
    var m := MinAddress(segs);
    Unwrapped(entrypoint - m);
    Unwrapped(entrypoint - m + base);
  }

  lemma Unwrapped(x: nat)
    requires x < U64
    ensures x % U64 == x
  {
  }

  lemma SizedAgrees(entrypoint: nat, segs: seq<ProgramHeader>, base: nat, size: nat)
    requires base != 0 && Sized(entrypoint, segs, 0, 0).memory_size <= size
    ensures var p, q := Sized(entrypoint, segs, 0, 0), Sized(entrypoint, segs, base, size);
      q.error.Ok? && q.memory_size == p.memory_size && q.entrypoint == (p.entrypoint + base) % U64
  {
  }

  lemma ReadWithAgrees(data: seq<u8>, h: Result<Header>, base: nat, size: nat)
    requires base != 0 && ReadWith(data, h, 0, 0).error.Ok? && ReadWith(data, h, 0, 0).memory_size <= size
    ensures var p, q := ReadWith(data, h, 0, 0), ReadWith(data, h, base, size);
      q.error.Ok? && q.memory_size == p.memory_size && q.entrypoint == (p.entrypoint + base) % U64
  {
    SizedAgrees(h.value.entrypoint, Segments(data, h.value), base, size);
  }

  /** The two calls of LoadElf agree: same bytes, at least the reported memory. */
  lemma TwoPassesAgree(data: seq<u8>, base: nat, size: nat)
    requires !EndsInMagic(data) && base != 0
    requires Read(data, 0, 0).error.Ok? && Read(data, 0, 0).memory_size <= size
    ensures var p, q := Read(data, 0, 0), Read(data, base, size);
      q.error.Ok? && q.memory_size == p.memory_size && q.entrypoint == (p.entrypoint + base) % U64
  {
    ReadWithAgrees(data, HeaderOf(data), base, size);
  }

  /** The segments a successful call loads, rebased. */
  function Image(segs: seq<ProgramHeader>): (r: seq<ProgramHeader>)
    ensures |r| == |segs|
    ensures forall k :: 0 <= k < |segs| ==> r[k] == segs[k].(v_address := segs[k].v_address - MinAddress(segs))
  {
    Rebased(segs, MinAddress(segs))
  }

  /** Given the reported memory and segments whose file part fits their memory part, every
      write of the load stays inside it, provided no segment end wraps. */
  lemma ReportedSizeSuffices(entrypoint: nat, segs: seq<ProgramHeader>, base: nat, k: nat, a: nat)
    requires k < |segs| && Owns(Image(segs)[k], base, a)
    requires Image(segs)[k].v_address + segs[k].mem_size < U64 && segs[k].file_size <= segs[k].mem_size
    ensures base <= a < base + Sized(entrypoint, segs, 0, 0).memory_size
  {
    assert End(Image(segs)[k]) <= MemorySize(Image(segs));
  }

  /** The reported size is no larger than any memory that holds all segments. */
  lemma ReportedSizeIsLeast(entrypoint: nat, segs: seq<ProgramHeader>, memory: nat)
    requires forall k :: 0 <= k < |segs| ==> Image(segs)[k].v_address + segs[k].mem_size <= memory
    ensures Sized(entrypoint, segs, 0, 0).memory_size <= memory
  {
    MemorySizeIsLeast(Image(segs), memory);
  }

  /** The rebased segments of a file, none if its header is rejected. */
  ghost function Loaded(data: seq<u8>): seq<ProgramHeader>
    requires !EndsInMagic(data)
  {
    match HeaderOf(data)
    case Err(_) => []
    case Ok(h) => Image(Segments(data, h))
  }

  /** A table that ends strictly inside the file and lists its PT_LOAD entries first is loaded
      from exactly those entries, in order. */
  lemma SegmentsAreTable(data: seq<u8>, h: Header, k: nat)
    requires |data| < U64 && h.programHeaderOffset + 56 * h.programHeaderEntries < |data| && k < h.programHeaderEntries
    requires LoadsFirst(Table(data, h.programHeaderOffset, h.programHeaderEntries))
    ensures var p := h.programHeaderOffset + 56 * k; var d := DecodeEntry(data[p..p + 56]);
      && (d.Some? <==> k < |Segments(data, h)|)
      && (d.Some? ==> Segments(data, h)[k] == d.value)
  {
    var t := Table(data, h.programHeaderOffset, h.programHeaderEntries);
    LoadableOfPrefix(t);
    TableLayout(data, h.programHeaderOffset, h.programHeaderEntries, k);
    assert Segments(data, h) == Used(t);
  }

  // ----- From file to memory -----

  /** Entry k of the table in the file. */
  function TableEntry(data: seq<u8>, h: Header, k: nat): Option<ProgramHeader>
    requires h.programHeaderOffset + 56 * h.programHeaderEntries < |data| && k < h.programHeaderEntries
  {
    var p := h.programHeaderOffset + 56 * k;
    DecodeEntry(data[p..p + 56])
  }

  /** The table ends strictly inside the file, PT_LOAD entries come first, and the segments do not overlap. */
  ghost predicate WellFormed(data: seq<u8>, h: Header, base: nat) {
    && |data| < U64 && h.programHeaderOffset + 56 * h.programHeaderEntries < |data|
    && LoadsFirst(Table(data, h.programHeaderOffset, h.programHeaderEntries))
    && Disjoint(Image(Segments(data, h)), base)
  }

  /** The address where byte i of a segment belongs. */
  function Target(segs: seq<ProgramHeader>, base: nat, s: ProgramHeader, i: nat): int {
    base + (s.v_address - MinAddress(segs)) + i
  }

  /** What the file says about byte i of a segment. */
  function FileByte(data: seq<u8>, s: ProgramHeader, i: nat): u8
    requires s.offset + s.file_size <= |data|
  {
    if i < s.file_size then data[s.offset + i] else 0
  }

  lemma SegmentByte(segs: seq<ProgramHeader>, base: nat, data: seq<u8>, mem: seq<u8>, k: nat, i: nat)
    requires k < |segs| && Disjoint(Image(segs), base)
    requires segs[k].file_size <= segs[k].mem_size && i < segs[k].mem_size
    requires segs[k].offset + segs[k].file_size <= |data|
    ensures var a := Target(segs, base, segs[k], i);
      base <= a && (a < |mem| ==> LoadedByte(Image(segs), base, data, mem, a) == FileByte(data, segs[k], i))
  {
    var a := Target(segs, base, segs[k], i);
    assert Owns(Image(segs)[k], base, a);
    if a < |mem| { ImageIsCorrect(Image(segs), base, data, mem, a); }
  }

  /** From the bytes of the file to the bytes of memory: byte i of the segment that entry k of the
      file's table describes. */
  lemma FileReachesMemory(data: seq<u8>, h: Header, base: nat, mem: seq<u8>, k: nat, i: nat)
    requires WellFormed(data, h, base) && k < h.programHeaderEntries && TableEntry(data, h, k).Some?
    requires var s := TableEntry(data, h, k).value;
      s.file_size <= s.mem_size && i < s.mem_size && s.offset + s.file_size <= |data|
    ensures var s, segs := TableEntry(data, h, k).value, Segments(data, h);
      var a := base + (s.v_address - MinAddress(segs)) + i;
      base <= a && (a < |mem| ==>
        LoadedByte(Image(segs), base, data, mem, a) == if i < s.file_size then data[s.offset + i] else 0)
  {
    var segs := Segments(data, h);
    EntryIsSegment(data, h, k);
    LiteralByte(segs, base, data, mem, k, i, TableEntry(data, h, k).value, base - MinAddress(segs));
  }

  lemma LiteralByte(segs: seq<ProgramHeader>, base: nat, data: seq<u8>, mem: seq<u8>, k: nat, i: nat,
                    s: ProgramHeader, shift: int)
    requires k < |segs| && segs[k] == s && Disjoint(Image(segs), base) && shift == base - MinAddress(segs)
    requires s.file_size <= s.mem_size && i < s.mem_size && s.offset + s.file_size <= |data|
    ensures var a := shift + s.v_address + i;
      base <= a && (a < |mem| ==>
        LoadedByte(Image(segs), base, data, mem, a) == if i < s.file_size then data[s.offset + i] else 0)
  {
    SegmentByte(segs, base, data, mem, k, i);
  }

  lemma EntryIsSegment(data: seq<u8>, h: Header, k: nat)
    requires |data| < U64 && h.programHeaderOffset + 56 * h.programHeaderEntries < |data|
    requires k < h.programHeaderEntries && TableEntry(data, h, k).Some?
    requires LoadsFirst(Table(data, h.programHeaderOffset, h.programHeaderEntries))
    ensures k < |Segments(data, h)| && Segments(data, h)[k] == TableEntry(data, h, k).value
  {
    SegmentsAreTable(data, h, k);
  }
}
