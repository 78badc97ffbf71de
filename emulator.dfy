/**
 * The emulator session of emulator.py, with the CPU engine reduced to what
 * the session itself relies on: a byte store (`memory`), the list of
 * `mem_map` requests it made (`mapped`) and the value it wrote to SP.
 *
 * - `Emulator.Alloc` is the bump allocator: it hands out the cursor and
 *   advances it; `Valid()` keeps the cursor equal to the base plus the sizes
 *   handed out so far, and `AllocationsAdjacent` and `AllocationsDisjoint`
 *   show the regions are back to back and never overlap.
 * - `Emulator.ReadString` is the byte-at-a-time NUL-terminated scan.
 * - `Emulator.DebugDump` is the dump loop, specified by the pure
 *   `DumpArtifacts`; each artifact is named by `DumpName`.
 */
module Emulation {
  import opened HexFormat

  type Byte = bv8

  const DefaultBase: nat := 0x40_0000
  const StackSize: nat := 64 * 1024 * 1024
  const BinSize: nat := 128 * 1024 * 1024

  /** One `mem_map(address, size)` request made by `alloc`. */
  datatype Mapping = Mapping(address: int, size: int)

  /**
   * One `(begin, end, prot)` triple of the engine's region report, taken as
   * given: whether `end` is inclusive is the engine's convention.
   */
  datatype RegionInfo = RegionInfo(begin: int, end: int, prot: int)

  /** One dump file: its name and the bytes written to it. */
  datatype Artifact = Artifact(name: string, data: seq<Byte>)

  // ---------------------------------------------------------------------
  // Allocation ledger

  /** Total size of the given mappings. */
  function SizeSum(ms: seq<Mapping>): (s: int)
  {
    if ms == [] then 0 else SizeSum(ms[..|ms| - 1]) + ms[|ms| - 1].size
  }

  predicate PositiveSizes(ms: seq<Mapping>) {
    forall i :: 0 <= i < |ms| ==> ms[i].size > 0
  }

  /** Each mapping starts where the sizes before it, laid end to end from `base`, stop. */
  predicate Contiguous(base: int, ms: seq<Mapping>) {
    forall i :: 0 <= i < |ms| ==> ms[i].address == base + SizeSum(ms[..i])
  }

  lemma {:induction false} SizeSumPrefixMonotone(ms: seq<Mapping>, i: nat, j: nat)
    requires PositiveSizes(ms)
    requires i <= j <= |ms|
    ensures SizeSum(ms[..i]) <= SizeSum(ms[..j])
    decreases j
  {
    if i < j {
      assert ms[..j][..j - 1] == ms[..j - 1];
      SizeSumPrefixMonotone(ms, i, j - 1);
    }
  }

  /** Appending a mapping at the cursor keeps the ledger contiguous and adds its size. */
  lemma ContiguousAppend(base: int, ms: seq<Mapping>, m: Mapping)
    requires Contiguous(base, ms) && m.address == base + SizeSum(ms)
    ensures Contiguous(base, ms + [m])
    ensures SizeSum(ms + [m]) == SizeSum(ms) + m.size
  {
    var ms' := ms + [m];
    assert ms'[..|ms|] == ms;
    forall i | 0 <= i < |ms'|
      ensures ms'[i].address == base + SizeSum(ms'[..i])
    {
      if i < |ms| {
        assert ms'[..i] == ms[..i];
      }
    }
  }

  /** The end of the `i`-th mapping is the base plus the sizes up to and including it. */
  lemma MappingEnd(base: int, ms: seq<Mapping>, i: nat)
    requires Contiguous(base, ms) && i < |ms|
    ensures ms[i].address + ms[i].size == base + SizeSum(ms[..i + 1])
  {
    assert ms[..i + 1][..i] == ms[..i];
  }

  /** Each allocation starts exactly where the previous one ends: no gap between them. */
  lemma AllocationsAdjacent(base: int, ms: seq<Mapping>)
    requires Contiguous(base, ms)
    ensures forall i :: 0 <= i < |ms| - 1 ==> ms[i + 1].address == ms[i].address + ms[i].size
  {
    forall i | 0 <= i < |ms| - 1
      ensures ms[i + 1].address == ms[i].address + ms[i].size
    {
      MappingEnd(base, ms, i);
    }
  }

  /** Every allocation ends at or before the cursor `base + SizeSum(ms)`. */
  lemma AllocationsBelowCursor(base: int, ms: seq<Mapping>)
    requires PositiveSizes(ms) && Contiguous(base, ms)
    ensures forall i :: 0 <= i < |ms| ==> ms[i].address + ms[i].size <= base + SizeSum(ms)
  {
    forall i | 0 <= i < |ms|
      ensures ms[i].address + ms[i].size <= base + SizeSum(ms)
    {
      MappingEnd(base, ms, i);
      SizeSumPrefixMonotone(ms, i + 1, |ms|);
      assert ms[..|ms|] == ms;
    }
  }

  /** No two allocations overlap: an earlier one ends at or before a later one starts. */
  lemma AllocationsDisjoint(base: int, ms: seq<Mapping>)
    requires PositiveSizes(ms) && Contiguous(base, ms)
    ensures forall i, j :: 0 <= i < j < |ms| ==> ms[i].address + ms[i].size <= ms[j].address
  {
    forall i, j | 0 <= i < j < |ms|
      ensures ms[i].address + ms[i].size <= ms[j].address
    {
      MappingEnd(base, ms, i);
      SizeSumPrefixMonotone(ms, i + 1, j);
    }
  }

  // ---------------------------------------------------------------------
  // Memory

  /** Every address in `[address, address + length)` holds a byte. */
  predicate Readable(memory: map<int, Byte>, address: int, length: int) {
    0 <= length && forall x :: address <= x < address + length ==> x in memory
  }

  /** `length` bytes from `address`, as `mem_read(address, length)` returns them. */
  function ReadRange(memory: map<int, Byte>, address: int, length: int): (r: seq<Byte>)
    requires Readable(memory, address, length)
  {
    seq(length, i requires 0 <= i < length => memory[address + i])
  }

  /**
   * The first zero byte at or after `address` is at offset `n`, and every
   * byte up to and including it is mapped.
   */
  predicate NulTerminatedAt(memory: map<int, Byte>, address: int, n: nat) {
    && (forall x :: address <= x < address + n ==> x in memory && memory[x] != 0)
    && address + n in memory && memory[address + n] == 0
  }

  /** Python's `chr` of one byte. */
  function Chr(b: Byte): (c: char)
    ensures c as int == b as int
  {
    (b as int) as char
  }

  /** The text of the `n` bytes at `address`, one character per byte. */
  function CString(memory: map<int, Byte>, address: int, n: nat): (s: string)
    requires NulTerminatedAt(memory, address, n)
  {
    seq(n, i requires 0 <= i < n => Chr(memory[address + i]))
  }

  /** The addresses `address, address + 1, ..., address + n - 1`, in order. */
  function Span(address: int, n: nat): (r: seq<int>)
  {
    seq(n, i => address + i)
  }

  /** There is only one first zero byte, so the scan's result is determined by memory. */
  lemma TerminatorUnique(memory: map<int, Byte>, address: int, n: nat, m: nat)
    requires NulTerminatedAt(memory, address, n) && NulTerminatedAt(memory, address, m)
    ensures n == m
  {
  }

  /** The bytes 0x41 0x42 0x00 0x43 read as the string "AB". */
  lemma ReadStringExample(memory: map<int, Byte>, address: int, s: string)
    requires address in memory && address + 1 in memory && address + 2 in memory && address + 3 in memory
    requires memory[address] == 0x41 && memory[address + 1] == 0x42
    requires memory[address + 2] == 0 && memory[address + 3] == 0x43
    requires NulTerminatedAt(memory, address, |s|) && s == CString(memory, address, |s|)
    ensures s == "AB"
  {
    assert address + 2 in memory;
    assert NulTerminatedAt(memory, address, 2);
    TerminatorUnique(memory, address, |s|, 2);
    assert s[0] == Chr(0x41) == 'A' && s[1] == Chr(0x42) == 'B';
  }

  // ---------------------------------------------------------------------
  // Dump

  /** `"{:#010x}-{:#010x}.bin".format(begin, end)`. */
  function DumpName(begin: nat, end: nat): (name: string)
  {
    Hex010(begin) + "-" + Hex010(end) + ".bin"
  }

  lemma Hex010OfBinBase()
    ensures Hex010(0x40_0000) == "0x00400000"
  {
    assert HexDigits(0x4) == "4";
    assert HexDigits(0x40) == "40";
    assert HexDigits(0x400) == "400";
    assert HexDigits(0x4000) == "4000";
    assert HexDigits(0x4_0000) == "40000";
    assert HexDigits(0x40_0000) == "400000";
    assert Zeros(2) == "00";
  }

  lemma Hex010OfStackBase()
    ensures Hex010(0x840_0000) == "0x08400000"
  {
    assert HexDigits(0x8) == "8";
    assert HexDigits(0x84) == "84";
    assert HexDigits(0x840) == "840";
    assert HexDigits(0x8400) == "8400";
    assert HexDigits(0x8_4000) == "84000";
    assert HexDigits(0x84_0000) == "840000";
    assert HexDigits(0x840_0000) == "8400000";
    assert Zeros(1) == "0";
  }

  /** The binary region of the default session is dumped as "0x00400000-0x08400000.bin". */
  lemma DumpNameExample()
    ensures DumpName(0x40_0000, 0x840_0000) == "0x00400000-0x08400000.bin"
  {
    Hex010OfBinBase();
    Hex010OfStackBase();
  }

  /** Reads a 32-bit dump name back into its range, or `None` if it is not one. */
  function ParseDumpName(name: string): (r: Option<(nat, nat)>)
  {
    if |name| == 25 && name[..2] == "0x" && name[10] == '-' && name[11..13] == "0x"
       && name[21..] == ".bin" && AllHexDigits(name[2..10]) && AllHexDigits(name[13..21])
    then Some((ParseHex(name[2..10]), ParseHex(name[13..21])))
    else None
  }

  datatype Option<T> = None | Some(value: T)

  /**
   * A 32-bit range's dump name is 25 characters long and reads back as that
   * range, so two different ranges never share a file name.
   */
  lemma DumpNameRoundTrip(begin: nat, end: nat)
    requires begin < Word && end < Word
    ensures |DumpName(begin, end)| == 25
    ensures ParseDumpName(DumpName(begin, end)) == Some((begin, end))
  {
    var b, e := Hex010(begin), Hex010(end);
    Hex010Width(begin);
    Hex010Width(end);
    Hex010RoundTrip(begin);
    Hex010RoundTrip(end);
    var name := DumpName(begin, end);
    assert name[2..10] == b[2..];
    assert name[13..21] == e[2..];
    assert name[..2] == b[..2];
    assert name[11..13] == e[..2];
    assert name[21..] == ".bin";
  }

  /** A region can be dumped when `end - begin` bytes from `begin` are readable. */
  predicate Dumpable(memory: map<int, Byte>, r: RegionInfo) {
    0 <= r.begin <= r.end && Readable(memory, r.begin, r.end - r.begin)
  }

  /** The file written for one region. */
  function DumpRegion(memory: map<int, Byte>, r: RegionInfo): (a: Artifact)
    requires Dumpable(memory, r)
  {
    Artifact(DumpName(r.begin, r.end), ReadRange(memory, r.begin, r.end - r.begin))
  }

  /** The files written by one dump, one per region, in the order of the report. */
  function DumpArtifacts(regions: seq<RegionInfo>, memory: map<int, Byte>): (files: seq<Artifact>)
    requires forall i :: 0 <= i < |regions| ==> Dumpable(memory, regions[i])
  {
    seq(|regions|, i requires 0 <= i < |regions| => DumpRegion(memory, regions[i]))
  }

  /**
   * Each artifact of a dump names its region's range and holds exactly
   * `end - begin` bytes, the ones stored from `begin` on.
   */
  lemma DumpArtifactsContent(regions: seq<RegionInfo>, memory: map<int, Byte>, i: nat)
    requires forall k :: 0 <= k < |regions| ==> Dumpable(memory, regions[k])
    requires i < |regions|
    ensures |DumpArtifacts(regions, memory)| == |regions|
    ensures |DumpArtifacts(regions, memory)[i].data| == regions[i].end - regions[i].begin
    ensures forall k :: 0 <= k < |DumpArtifacts(regions, memory)[i].data| ==>
              DumpArtifacts(regions, memory)[i].data[k] == memory[regions[i].begin + k]
    ensures regions[i].end < Word ==>
              ParseDumpName(DumpArtifacts(regions, memory)[i].name) == Some((regions[i].begin, regions[i].end))
  {
    if regions[i].end < Word {
      DumpNameRoundTrip(regions[i].begin, regions[i].end);
    }
  }

  /** Regions with different 32-bit ranges are dumped to different files. */
  lemma DumpNamesDistinct(regions: seq<RegionInfo>, memory: map<int, Byte>, i: nat, j: nat)
    requires forall k :: 0 <= k < |regions| ==> Dumpable(memory, regions[k])
    requires i < |regions| && j < |regions|
    requires regions[i].end < Word && regions[j].end < Word
    requires (regions[i].begin, regions[i].end) != (regions[j].begin, regions[j].end)
    ensures DumpArtifacts(regions, memory)[i].name != DumpArtifacts(regions, memory)[j].name
  {
    DumpArtifactsContent(regions, memory, i);
    DumpArtifactsContent(regions, memory, j);
  }

  // ---------------------------------------------------------------------
  // The session

  class Emulator {
    var base: int
    var nextAllocBase: int
    var binBase: int
    var stackBase: int
    /** The value written to the engine's SP register. */
    var sp: int
    /** The `mem_map` requests made so far, oldest first. */
    var mapped: seq<Mapping>
    /** The engine's memory: the byte stored at each mapped address that holds one. */
    var memory: map<int, Byte>

    /** The cursor is the base plus everything handed out, and stays in the 32-bit space. */
    ghost predicate Valid()
      reads this
    {
      && 0 <= base
      && PositiveSizes(mapped)
      && Contiguous(base, mapped)
      && nextAllocBase == base + SizeSum(mapped)
      && nextAllocBase <= Word
    }

    /**
     * A session over `base`: the binary region at `base`, the stack right
     * after it, and SP in the middle of the stack.
     */
    constructor (base: int)
      requires 0 <= base && base + BinSize + StackSize <= Word
      ensures Valid()
      ensures this.base == base
      ensures binBase == base && stackBase == base + BinSize
      ensures nextAllocBase == base + BinSize + StackSize
      ensures mapped == [Mapping(base, BinSize), Mapping(base + BinSize, StackSize)]
      ensures sp == stackBase + StackSize / 2
      ensures stackBase < sp < stackBase + StackSize
      ensures memory == map[]
    {
      this.base := base;
      nextAllocBase := base;
      mapped := [];
      memory := map[];
      new;
      assert SizeSum([]) == 0;
      binBase := Alloc(BinSize);
      assert mapped == [Mapping(base, BinSize)];
      stackBase := Alloc(StackSize);
      sp := stackBase + StackSize / 2;
    }

    /**
     * Maps `size` bytes at the cursor and returns where they start; the
     * cursor moves past them and nothing else changes.
     */
    method Alloc(size: int) returns (allocBase: int)
      requires Valid()
      requires size > 0 && nextAllocBase + size <= Word
      modifies this
      ensures Valid()
      ensures allocBase == old(nextAllocBase)
      ensures nextAllocBase == old(nextAllocBase) + size
      ensures mapped == old(mapped) + [Mapping(allocBase, size)]
      ensures old(mapped) != [] ==>
                allocBase == old(mapped)[|old(mapped)| - 1].address + old(mapped)[|old(mapped)| - 1].size
      ensures base == old(base) && binBase == old(binBase) && stackBase == old(stackBase)
      ensures sp == old(sp) && memory == old(memory)
    {
      AllocationsAdjacent(base, mapped);
      AllocationsBelowCursor(base, mapped);
      allocBase := nextAllocBase;
      ContiguousAppend(base, mapped, Mapping(allocBase, size));
      mapped := mapped + [Mapping(allocBase, size)];
      nextAllocBase := nextAllocBase + size;
    }

    /**
     * Reads bytes from `address` up to the first zero byte and returns them
     * as text. `probed` lists the addresses read, in order: the terminator
     * is the last one, nothing after it is touched.
     */
    method ReadString(address: int) returns (s: string, ghost probed: seq<int>)
      requires exists n: nat :: NulTerminatedAt(memory, address, n)
      ensures NulTerminatedAt(memory, address, |s|)
      ensures s == CString(memory, address, |s|)
      ensures forall i :: 0 <= i < |s| ==> s[i] != '\0'
      ensures probed == Span(address, |s| + 1)
    {
      ghost var k: nat :| NulTerminatedAt(memory, address, k);
      var buf: seq<Byte> := [];
      var cursor := address;
      probed := [];
      while true
        invariant cursor == address + |buf| && |buf| <= k
        invariant forall i :: 0 <= i < |buf| ==> memory[address + i] != 0 && buf[i] == memory[address + i]
        invariant probed == Span(address, |buf|)
        decreases k - |buf|
      {
        assert address <= cursor <= address + k;
        var c := memory[cursor];
        probed := probed + [cursor];
        if c == 0 {
          break;
        }
        buf := buf + [c];
        cursor := cursor + 1;
      }
      s := seq(|buf|, i requires 0 <= i < |buf| => Chr(buf[i]));
      assert forall x :: address <= x < address + |buf| ==> memory[x] == buf[x - address];
    }

    /** One dump artifact per reported region, in order. */
    method DebugDump(regions: seq<RegionInfo>) returns (files: seq<Artifact>)
      requires forall i :: 0 <= i < |regions| ==> Dumpable(memory, regions[i])
      ensures files == DumpArtifacts(regions, memory)
    {
      files := [];
      for i := 0 to |regions|
        invariant |files| == i
        invariant forall k :: 0 <= k < i ==> files[k] == DumpRegion(memory, regions[k])
      {
        var r := regions[i];
        var name := DumpName(r.begin, r.end);
        var data := ReadRange(memory, r.begin, r.end - r.begin);
        files := files + [Artifact(name, data)];
      }
    }
  }

  /** The default session: regions [0x400000, 0x8400000) and [0x8400000, 0xC400000), SP at 0xA400000. */
  method DefaultSession() returns (e: Emulator)
    ensures e.Valid()
    ensures e.base == 0x40_0000 && e.binBase == 0x40_0000 && e.stackBase == 0x840_0000
    ensures e.nextAllocBase == 0xC40_0000 && e.sp == 0xA40_0000
    ensures e.mapped == [Mapping(0x40_0000, 0x800_0000), Mapping(0x840_0000, 0x400_0000)]
  {
    e := new Emulator(DefaultBase);
  }

  /** With 0x41 0x42 0x00 0x43 stored at the default base, the scan yields "AB". */
  method ReadStringScenario() returns (s: string)
    ensures s == "AB"
  {
    var e := new Emulator(DefaultBase);
    var a := DefaultBase;
    e.memory := map[a := 0x41, a + 1 := 0x42, a + 2 := 0, a + 3 := 0x43];
    assert NulTerminatedAt(e.memory, a, 2);
    ghost var probed;
    s, probed := e.ReadString(a);
    ReadStringExample(e.memory, a, s);
  }
}
