/** Reading an ELF64 file through a cursor (elf_loader/elfloader.c). */
module ElfFile {
  import opened Arithmetic
  import opened Options

  type u8 = x: nat | x < 256

  const U64: nat := 0x1_0000_0000_0000_0000
  const MAGIC: seq<u8> := [0x7f, 0x45, 0x4c, 0x46]
  const MAX_PROGRAM_HEADERS: nat := 32

  datatype Error = BadMagic | Is32Bit | BadBitness | IsBigEndian | BadEndianness | BadVersion | BadAbi | BadType
                 | BadMachine | BadVersion2 | TooManyHeaders | MemoryTooSmall

  datatype Result<+T> = Ok(value: T) | Err(error: Error)

  datatype Header = Header(entrypoint: nat, programHeaderOffset: nat, programHeaderEntries: nat)

  datatype ProgramHeader = ProgramHeader(offset: nat, v_address: nat, file_size: nat, mem_size: nat, align: nat)

  const NO_HEADER: ProgramHeader := ProgramHeader(0, 0, 0, 0, 0)

  function Power256(n: nat): (v: nat)
    ensures v > 0
  {
    if n == 0 then 1 else 256 * Power256(n - 1)
  }

  /** The little-endian number in some bytes. */
  function LittleEndian(bytes: seq<u8>): (v: nat)
    ensures v < Power256(|bytes|)
  {
    if bytes == [] then 0 else bytes[0] + 256 * LittleEndian(bytes[1..])
  }

  /** Byte i of the sequence is digit i of the number, in base 256. */
  lemma {:induction false} NumberBytes(bytes: seq<u8>, i: nat)
    requires i < |bytes|
    ensures LittleEndian(bytes) / Power256(i) % 256 == bytes[i]
    ensures Power256(0) == 1 && Power256(i + 1) == 256 * Power256(i)
    decreases i
  {
    var rest := LittleEndian(bytes[1..]);
    DivMod(rest, bytes[0], 256);
    if i > 0 {
      NumberBytes(bytes[1..], i - 1);
      DivDiv(LittleEndian(bytes), 256, Power256(i - 1));
    }
  }

  lemma TwoBytes(b: seq<u8>)
    requires |b| == 2
    ensures LittleEndian(b) == b[0] as nat + 0x100 * b[1] as nat
  {
    assert b[1..][1..] == [];
  }

  lemma FourBytes(b: seq<u8>)
    requires |b| == 4
    ensures LittleEndian(b) == b[0] as nat + 0x100 * b[1] as nat + 0x1_0000 * b[2] as nat + 0x100_0000 * b[3] as nat
  {
    TwoBytes(b[2..]);
    assert b[1..][1..] == b[2..];
  }

  lemma EightBytes(b: seq<u8>)
    requires |b| == 8
    ensures LittleEndian(b) == b[0] as nat + 0x100 * b[1] as nat + 0x1_0000 * b[2] as nat + 0x100_0000 * b[3] as nat
      + 0x1_0000_0000 * (b[4] as nat + 0x100 * b[5] as nat + 0x1_0000 * b[6] as nat + 0x100_0000 * b[7] as nat)
  {
    FourBytes(b[4..]);
    assert b[1..][1..] == b[2..] && b[2..][1..] == b[3..] && b[3..][1..] == b[4..];
    assert LittleEndian(b[3..]) == b[3] + 256 * LittleEndian(b[4..]);
    assert LittleEndian(b[2..]) == b[2] + 256 * LittleEndian(b[3..]);
    assert LittleEndian(b[1..]) == b[1] + 256 * LittleEndian(b[2..]);
  }

  // ----- Cursor reads as functions of the position -----

  /** A read of n bytes happens only strictly before the last n bytes; otherwise it gives 0 in place. */
  predicate Readable(data: seq<u8>, idx: nat, n: nat) { idx + n < |data| }

  function Number(data: seq<u8>, idx: nat, n: nat): nat {
    if Readable(data, idx, n) then LittleEndian(data[idx..idx + n]) else 0
  }

  function Next(data: seq<u8>, idx: nat, n: nat): nat {
    if Readable(data, idx, n) then idx + n else idx
  }

  function Skip(data: seq<u8>, idx: nat, n: nat): nat {
    if (idx + n) % U64 > |data| then |data| else (idx + n) % U64
  }

  class Seek {
    const data: seq<u8>
    var idx: nat

    constructor (bytes: seq<u8>)
      ensures data == bytes && idx == 0
    {
      data, idx := bytes, 0;
    }

    method Expect(bytes: seq<u8>) returns (b: bool)
      requires idx + |bytes| < U64
      modifies this
      ensures b <==> forall i :: 0 <= i < |bytes| && old(idx) + i < |data| ==> data[old(idx) + i] == bytes[i]
      ensures idx == if b then old(idx) + |bytes| else old(idx)
    {
      var i := idx;
      while i < idx + |bytes| && i < |data|
        invariant idx <= i <= idx + |bytes| && idx == old(idx)
        invariant forall k :: 0 <= k < i - idx ==> idx + k < |data| && data[idx + k] == bytes[k]
      {
        if data[i] != bytes[i - idx] { return false; }
        i := i + 1;
      }
      idx := idx + |bytes|;
      return true;
    }

    method SkipBytes(n: nat)
      requires |data| < U64
      modifies this
      ensures idx == if (old(idx) + n) % 0x1_0000_0000_0000_0000 > |data| then |data|
                     else (old(idx) + n) % 0x1_0000_0000_0000_0000
      ensures idx == Skip(data, old(idx), n)
    {
      if (idx + n) % U64 > |data| {
        idx := |data|;
      } else {
        idx := (idx + n) % U64;
      }
    }

    method ReadByte() returns (x: nat)
      requires idx <= |data|
      modifies this
      ensures if old(idx) == |data| then x == 0 && idx == old(idx) else x == data[old(idx)] && idx == old(idx) + 1
    {
      if idx == |data| { return 0; }
      x := data[idx];
      idx := idx + 1;
    }

    /** readshort, readint and readlong, for n = 2, 4 and 8. No caller comes here in a file shorter
        than n bytes, where the subtraction would wrap. */
    method ReadNumber(n: nat) returns (x: nat)
      requires 0 < n <= |data| < U64
      modifies this
      ensures if old(idx) + n < |data| then x == LittleEndian(data[old(idx)..old(idx) + n]) && idx == old(idx) + n
              else x == 0 && idx == old(idx)
      ensures x == Number(data, old(idx), n) && idx == Next(data, old(idx), n)
    {
      if idx >= |data| - n { return 0; }
      x := LittleEndian(data[idx..idx + n]);
      idx := idx + n;
    }
  }

  // ----- The file header -----

  /** A file that ends inside the magic passes the check of it, and leaves the cursor outside the file. */
  predicate EndsInMagic(data: seq<u8>) { |data| < 4 && data == MAGIC[..|data|] }

  function ByteAt(data: seq<u8>, idx: nat): u8 { if idx < |data| then data[idx] else 0 }

  /** The checks on the identification bytes and the three numbers after them. */
  function HeaderOf(data: seq<u8>): Result<Header>
    requires !EndsInMagic(data)
  {
    if |data| < 4 || data[..4] != MAGIC then Err(BadMagic)
    else if ByteAt(data, 4) == 1 then Err(Is32Bit)
    else if ByteAt(data, 4) != 2 then Err(BadBitness)
    else if ByteAt(data, 5) == 2 then Err(IsBigEndian)
    else if ByteAt(data, 5) != 1 then Err(BadEndianness)
    else if ByteAt(data, 6) != 1 then Err(BadVersion)
    else if ByteAt(data, 7) != 0 then Err(BadAbi)
    else
      var i0 := Skip(data, if |data| < 9 then |data| else 9, 7);
      var i1 := Next(data, i0, 2);
      var i2 := Next(data, i1, 2);
      var i3 := Next(data, i2, 4);
      var i4 := Next(data, i3, 8);
      var i5 := Next(data, i4, 8);
      var i6 := Next(data, i5, 8);
      var i7 := Next(data, i6, 4);
      var i8 := Next(data, i7, 2);
      var i9 := Next(data, i8, 2);
      if Number(data, i0, 2) != 2 then Err(BadType)
      else if Number(data, i1, 2) != 0x3e then Err(BadMachine)
      else if Number(data, i2, 4) != 1 then Err(BadVersion2)
      else Ok(Header(Number(data, i3, 8), Number(data, i4, 8), Number(data, i9, 2)))
  }

  /** No file of at most sixteen bytes is accepted. */
  lemma ShortIsRejected(data: seq<u8>)
    requires !EndsInMagic(data) && |data| <= 16
    ensures HeaderOf(data).Err?
  {
  }

  /** In a file longer than its header the cursor meets every field at its ELF64 offset. */
  lemma HeaderFields(data: seq<u8>)
    requires 64 < |data| < U64
    ensures HeaderOf(data).Ok? ==>
      HeaderOf(data).value == Header(LittleEndian(data[24..32]), LittleEndian(data[32..40]), LittleEndian(data[56..58]))
    ensures HeaderOf(data).Ok? <==>
      && data[..8] == MAGIC + [2, 1, 1, 0]
      && LittleEndian(data[16..18]) == 2 && LittleEndian(data[18..20]) == 0x3e && LittleEndian(data[20..24]) == 1
  {
    HeaderAccepted(data);
  }

  /** What an accepted file of more than 64 bytes has in it, byte by byte, and what is read from it. */
  lemma HeaderBytes(data: seq<u8>)
    requires 64 < |data| < U64
    ensures HeaderOf(data).Ok? <==>
      && data[0] == 0x7f && data[1] == 0x45 && data[2] == 0x4c && data[3] == 0x46
      && data[4] == 2 && data[5] == 1 && data[6] == 1 && data[7] == 0
      && data[16] == 2 && data[17] == 0 && data[18] == 0x3e && data[19] == 0
      && data[20] == 1 && data[21] == 0 && data[22] == 0 && data[23] == 0
    ensures HeaderOf(data).Ok? ==>
      && var h := HeaderOf(data).value;
      && h.entrypoint
         == data[24] as nat + 0x100 * data[25] as nat + 0x1_0000 * data[26] as nat
            + 0x100_0000 * data[27] as nat
            + 0x1_0000_0000 * (data[28] as nat + 0x100 * data[29] as nat + 0x1_0000 * data[30] as nat
                               + 0x100_0000 * data[31] as nat)
      && h.programHeaderOffset
         == data[32] as nat + 0x100 * data[33] as nat + 0x1_0000 * data[34] as nat
            + 0x100_0000 * data[35] as nat
            + 0x1_0000_0000 * (data[36] as nat + 0x100 * data[37] as nat + 0x1_0000 * data[38] as nat
                               + 0x100_0000 * data[39] as nat)
      && h.programHeaderEntries == data[56] as nat + 0x100 * data[57] as nat
  {
    HeaderFields(data);
    IdentificationBytes(data);
    TwoBytes(data[16..18]);
    TwoBytes(data[18..20]);
    FourBytes(data[20..24]);
    EightBytes(data[24..32]);
    EightBytes(data[32..40]);
    TwoBytes(data[56..58]);
  }

  lemma IdentificationBytes(data: seq<u8>)
    requires 8 <= |data|
    ensures data[..4] == MAGIC <==> data[0] == 0x7f && data[1] == 0x45 && data[2] == 0x4c && data[3] == 0x46
    ensures data[..8] == MAGIC + [2, 1, 1, 0] <==>
      data[..4] == MAGIC && data[4] == 2 && data[5] == 1 && data[6] == 1 && data[7] == 0
  {
    var a, b := data[..8], MAGIC + [2, 1, 1, 0];
    assert a[..4] == data[..4] && b[..4] == MAGIC;
    assert a[4] == data[4] && a[5] == data[5] && a[6] == data[6] && a[7] == data[7];
    if data[0] == 0x7f && data[1] == 0x45 && data[2] == 0x4c && data[3] == 0x46 { assert data[..4] == MAGIC; }
    if data[..4] == MAGIC {
      assert data[0] == data[..4][0] && data[1] == data[..4][1] && data[2] == data[..4][2] && data[3] == data[..4][3];
    }
    assert a == a[..4] + [a[4], a[5], a[6], a[7]];
  }

  /** The error names the first check that fails, in the order of the file's bytes. */
  lemma HeaderErrors(data: seq<u8>)
    requires 64 < |data| < U64
    ensures HeaderOf(data) == Err(BadMagic) <==> data[..4] != [0x7f, 0x45, 0x4c, 0x46]
    ensures HeaderOf(data) == Err(Is32Bit) <==> data[..4] == [0x7f, 0x45, 0x4c, 0x46] && data[4] == 1
    ensures HeaderOf(data) == Err(BadBitness) <==> data[..4] == [0x7f, 0x45, 0x4c, 0x46] && data[4] !in {1, 2}
    ensures HeaderOf(data) == Err(IsBigEndian) <==> data[..5] == [0x7f, 0x45, 0x4c, 0x46, 2] && data[5] == 2
    ensures HeaderOf(data) == Err(BadEndianness) <==> data[..5] == [0x7f, 0x45, 0x4c, 0x46, 2] && data[5] !in {1, 2}
    ensures HeaderOf(data) == Err(BadVersion) <==> data[..6] == [0x7f, 0x45, 0x4c, 0x46, 2, 1] && data[6] != 1
    ensures HeaderOf(data) == Err(BadAbi) <==> data[..7] == [0x7f, 0x45, 0x4c, 0x46, 2, 1, 1] && data[7] != 0
    ensures HeaderOf(data) == Err(BadType) <==>
      data[..8] == [0x7f, 0x45, 0x4c, 0x46, 2, 1, 1, 0] && data[16..18] != [2, 0]
    ensures HeaderOf(data) == Err(BadMachine) <==>
      data[..8] == [0x7f, 0x45, 0x4c, 0x46, 2, 1, 1, 0] && data[16..18] == [2, 0] && data[18..20] != [0x3e, 0]
    ensures HeaderOf(data) == Err(BadVersion2) <==>
      && data[..8] == [0x7f, 0x45, 0x4c, 0x46, 2, 1, 1, 0] && data[16..18] == [2, 0] && data[18..20] == [0x3e, 0]
      && data[20..24] != [1, 0, 0, 0]
  {
    Prefixes(data);
    NumberChecks(data);
    assert Skip(data, 9, 7) == 16;
  }

  lemma Prefixes(data: seq<u8>)
    requires 8 <= |data|
    ensures data[..5] == [0x7f, 0x45, 0x4c, 0x46, 2] <==> data[..4] == MAGIC && data[4] == 2
    ensures data[..6] == [0x7f, 0x45, 0x4c, 0x46, 2, 1] <==> data[..4] == MAGIC && data[4] == 2 && data[5] == 1
    ensures data[..7] == [0x7f, 0x45, 0x4c, 0x46, 2, 1, 1] <==>
      data[..4] == MAGIC && data[4] == 2 && data[5] == 1 && data[6] == 1
    ensures data[..8] == [0x7f, 0x45, 0x4c, 0x46, 2, 1, 1, 0] <==>
      data[..4] == MAGIC && data[4] == 2 && data[5] == 1 && data[6] == 1 && data[7] == 0
  {
    Extended(data, 4, MAGIC, 2);
    Extended(data, 5, MAGIC + [2], 1);
    Extended(data, 6, MAGIC + [2, 1], 1);
    Extended(data, 7, MAGIC + [2, 1, 1], 0);
  }

  lemma Extended(data: seq<u8>, n: nat, m: seq<u8>, b: u8)
    requires n < |data| && |m| == n
    ensures data[..n + 1] == m + [b] <==> data[..n] == m && data[n] == b
  {
    assert data[..n + 1] == data[..n] + [data[n]];
    if data[..n + 1] == m + [b] { assert data[..n] == data[..n + 1][..n] && data[n] == data[..n + 1][n]; }
  }

  /** The three numbers after the identification, as bytes. */
  lemma NumberChecks(data: seq<u8>)
    requires 24 <= |data|
    ensures LittleEndian(data[16..18]) == 2 <==> data[16..18] == [2, 0]
    ensures LittleEndian(data[18..20]) == 0x3e <==> data[18..20] == [0x3e, 0]
    ensures LittleEndian(data[20..24]) == 1 <==> data[20..24] == [1, 0, 0, 0]
  {
    TwoBytes(data[16..18]);
    TwoBytes(data[18..20]);
    FourBytes(data[20..24]);
  }

  lemma HeaderAccepted(data: seq<u8>)
    requires 64 < |data| < U64
    ensures HeaderOf(data).Ok? <==>
      && data[..8] == MAGIC + [2, 1, 1, 0]
      && LittleEndian(data[16..18]) == 2 && LittleEndian(data[18..20]) == 0x3e && LittleEndian(data[20..24]) == 1
  {
    assert Skip(data, 9, 7) == 16;
    IdentificationBytes(data);
  }

  // ----- The program header table -----

  /** The entry read at a position: None unless it is PT_LOAD. */
  function EntryAt(data: seq<u8>, idx: nat): Option<ProgramHeader> {
    if Number(data, idx, 4) != 1 then None
    else
      var i1 := Next(data, Next(data, idx, 4), 4);
      var i2 := Next(data, i1, 8);
      var i3 := Next(data, Next(data, i2, 8), 8);
      var i4 := Next(data, i3, 8);
      var i5 := Next(data, i4, 8);
      Some(ProgramHeader(Number(data, i1, 8), Number(data, i2, 8), Number(data, i3, 8), Number(data, i4, 8),
                         Number(data, i5, 8)))
  }

  function AfterEntry(data: seq<u8>, idx: nat): nat {
    if Number(data, idx, 4) != 1 then Skip(data, Next(data, idx, 4), 0x38 - 0x4)
    else
      var i1 := Next(data, Next(data, idx, 4), 4);
      Next(data, Next(data, Next(data, Next(data, Next(data, Next(data, i1, 8), 8), 8), 8), 8), 8)
  }

  function CursorAt(data: seq<u8>, start: nat, k: nat): nat {
    if k == 0 then start else AfterEntry(data, CursorAt(data, start, k - 1))
  }

  /** The table, one optional PT_LOAD entry per header. */
  function Table(data: seq<u8>, start: nat, n: nat): (t: seq<Option<ProgramHeader>>)
    ensures |t| == n
  {
    if n == 0 then [] else Table(data, start, n - 1) + [EntryAt(data, CursorAt(data, start, n - 1))]
  }

  lemma {:induction false} TableAt(data: seq<u8>, start: nat, n: nat, k: nat)
    requires k < n
    ensures Table(data, start, n)[k] == EntryAt(data, CursorAt(data, start, k))
  {
    if k < n - 1 { TableAt(data, start, n - 1, k); }
  }

  /** The PT_LOAD entry stored in the 56 bytes at a position. */
  function DecodeEntry(bytes: seq<u8>): Option<ProgramHeader>
    requires |bytes| == 56
  {
    if LittleEndian(bytes[..4]) != 1 then None
    else Some(ProgramHeader(LittleEndian(bytes[8..16]), LittleEndian(bytes[16..24]), LittleEndian(bytes[32..40]),
                            LittleEndian(bytes[40..48]), LittleEndian(bytes[48..56])))
  }

  /** The type is in the first four bytes, PT_LOAD is 1, and the fields are eight-byte numbers. */
  lemma EntryBytes(bytes: seq<u8>)
    requires |bytes| == 56
    ensures DecodeEntry(bytes).Some? <==> bytes[0] == 1 && bytes[1] == 0 && bytes[2] == 0 && bytes[3] == 0
    ensures DecodeEntry(bytes).Some? ==>
      var h := DecodeEntry(bytes).value;
      && h.offset == LittleEndian(bytes[8..16]) && h.v_address == LittleEndian(bytes[16..24])
      && h.file_size == LittleEndian(bytes[32..40]) && h.mem_size == LittleEndian(bytes[40..48])
      && h.align == LittleEndian(bytes[48..56])
  {
    FourBytes(bytes[..4]);
  }

  /** In a table that ends strictly inside the file the cursor is at start + 56 * k after k entries. */
  lemma {:induction false} TableCursor(data: seq<u8>, start: nat, n: nat, k: nat)
    requires |data| < U64 && start + 56 * n < |data| && k <= n
    ensures CursorAt(data, start, k) == start + 56 * k
  {
    if k > 0 {
      TableCursor(data, start, n, k - 1);
      var p := start + 56 * (k - 1);
      assert p + 56 < |data|;
      EntryWidth(data, p);
      assert CursorAt(data, start, k) == AfterEntry(data, p);
    }
  }

  /** Such a table is read entry by entry from its 56-byte slots. */
  lemma TableLayout(data: seq<u8>, start: nat, n: nat, k: nat)
    requires |data| < U64 && start + 56 * n < |data| && k < n
    ensures Table(data, start, n)[k] == DecodeEntry(data[start + 56 * k..start + 56 * k + 56])
  {
    TableAt(data, start, n, k);
    TableCursor(data, start, n, k);
    EntryLayout(data, start + 56 * k);
  }

  lemma EntryWidth(data: seq<u8>, p: nat)
    requires p + 56 < |data| < U64
    ensures AfterEntry(data, p) == p + 56
  {
  }

  lemma EntryLayout(data: seq<u8>, p: nat)
    requires p + 56 < |data| < U64
    ensures EntryAt(data, p) == DecodeEntry(data[p..p + 56])
  {
    Slice(data, p, 0, 4);
    Slice(data, p, 8, 16);
    Slice(data, p, 16, 24);
    Slice(data, p, 32, 40);
    Slice(data, p, 40, 48);
    Slice(data, p, 48, 56);
  }

  lemma Slice(data: seq<u8>, p: nat, a: nat, b: nat)
    requires a <= b <= 56 && p + 56 <= |data|
    ensures data[p..p + 56][a..b] == data[p + a..p + b]
  {
    var l, r := data[p..p + 56][a..b], data[p + a..p + b];
    assert |l| == |r|;
    forall i | 0 <= i < |l| ensures l[i] == r[i] { assert l[i] == data[p + a + i]; }
  }
}
