# Emulator session: bump allocator, C-string scan and memory dump

This project models the core of `emulator.py`, the session object of an ARM
emulation harness built over the Unicorn CPU engine. The engine is reduced to
what the session relies on:

- its memory, an abstract `map<int, bv8>` from address to byte;
- the ordered list of `mem_map` requests the session made;
- the value the session wrote to the SP register.

Three pieces of sequential logic are modelled and proved:

- **Bump allocator** (`Emulation.Emulator.Alloc` and the constructor). `alloc`
  hands out the cursor `next_alloc_base` and advances it by `size`. The
  constructor starts the cursor at `base` and allocates the 128 MiB binary
  region, then the 64 MiB stack region. It then seeds SP to the middle of the
  stack. The class invariant `Valid()` keeps the cursor equal to `base` plus
  the sum of all sizes handed out, with every region placed where the previous
  one ended. `AllocationsAdjacent` and `AllocationsDisjoint` prove that the
  regions are back to back and never overlap.
- **NUL-terminated string scan** (`Emulation.Emulator.ReadString`). A
  byte-at-a-time loop that stops at the first zero byte. It returns exactly the
  bytes before the terminator, one character per byte as Python's `chr` gives
  them. A ghost trace of the addresses it read shows that it reads nothing past
  the terminator.
- **Dump enumeration and naming** (`Emulation.Emulator.DebugDump`, specified by
  the pure `Emulation.DumpArtifacts`). For each region of the engine's report,
  in order, the dump yields one (file name, bytes) pair. The name is
  `"{:#010x}-{:#010x}.bin"` of the region's `begin` and `end`. The format spec
  `{:#010x}` is the pure `HexFormat.Hex010`, with `HexFormat.ParseHex` as its
  inverse.

Files: `hexformat.dfy` (module `HexFormat`) and `emulator.dfy` (module
`Emulation`).

Two places where the code has no error path of its own:

- `alloc` checks neither a zero size nor 32-bit overflow; only the engine
  faults. The model states both as preconditions of `Alloc`.
- `read_string` has no bound on its scan; only the engine faults on an
  unmapped read. The model requires that a zero byte exists in mapped memory
  at or after the start address.

## Model

| member | source | states |
|---|---|---|
| `Emulation.Emulator.constructor` | emulator.py:16-24 | the cursor starts at `base`; the binary region is at `base` and the stack at `base + BIN_SIZE`; the cursor ends at `base + BIN_SIZE + STACK_SIZE`; exactly these two regions are mapped, in this order; SP is `stack_base + STACK_SIZE // 2`, strictly inside the stack; the allocator invariant holds |
| `Emulation.DefaultSession` | emulator.py:8-24 | with the default base, the regions start at 0x400000 and 0x8400000, the cursor is 0xC400000 and SP is 0xA400000 |
| `Emulation.Emulator.Alloc` | emulator.py:44-48 | returns the cursor value at entry; advances the cursor by exactly `size`; appends one mapping `(returned address, size)` and keeps the earlier ones; the result equals the previous region's start plus its size; base, region bases, SP and memory are unchanged; the invariant "cursor = base + sum of sizes, regions contiguous" is preserved |
| `Emulation.ContiguousAppend` | emulator.py:45-47 | mapping a region at the cursor keeps every region at `base` + the sizes before it, and adds its size to the total |
| `Emulation.AllocationsAdjacent` | emulator.py:45-47 | for contiguous allocations, each region starts exactly where the previous one ends (returned address = previous return + previous size) |
| `Emulation.AllocationsBelowCursor` | emulator.py:19-23 | for contiguous allocations of positive size, every region ends at or before the cursor `base` + the sum of all sizes |
| `Emulation.AllocationsDisjoint` | emulator.py:19-23 | for contiguous allocations of positive size, no two regions overlap: an earlier one ends at or before a later one starts |
| `Emulation.Emulator.ReadString` | emulator.py:53-61 | the result is the characters of the bytes from `address` up to and excluding the first zero byte; its length is that zero's offset; it contains no NUL; the addresses read are exactly `address … address + length`, the terminator last; memory is not modified |
| `Emulation.TerminatorUnique` | emulator.py:55-58 | the first zero byte is unique, so the scan's result is determined by memory |
| `Emulation.ReadStringExample` | emulator.py:53-61 | any result the scan may return on bytes 41 42 00 43 is "AB" |
| `Emulation.ReadStringScenario` | emulator.py:53-61 | a default session holding bytes 41 42 00 43 at 0x400000 reads the string "AB" there |
| `Emulation.Emulator.DebugDump` | emulator.py:68-72 | the dump loop yields exactly `DumpArtifacts` of the region report and memory |
| `Emulation.DumpArtifactsContent` | emulator.py:68-72 | one artifact per region, in order; artifact `i` holds exactly `end - begin` bytes, byte `k` being the one stored at `begin + k`; for a 32-bit range its name reads back as `(begin, end)` |
| `Emulation.DumpNamesDistinct` | emulator.py:68-69 | two regions with different 32-bit ranges are dumped to files with different names |
| `Emulation.DumpNameRoundTrip` | emulator.py:69 | a 32-bit range's file name is 25 characters and parses back to `(begin, end)` |
| `Emulation.DumpNameExample` | emulator.py:69 | the default binary range 0x400000..0x8400000 is named "0x00400000-0x08400000.bin" |
| `HexFormat.HexDigits` | emulator.py:69 | the digit string of a value is non-empty, lowercase hex only, and has no leading zero unless it is "0" |
| `HexFormat.ParseHexDigits` | emulator.py:69 | reading the digit string of `v` back gives `v` |
| `HexFormat.HexDigitsLength` | emulator.py:69 | `v` has at most `n` hex digits exactly when `v < 16^n` |
| `HexFormat.Hex010RoundTrip` | emulator.py:69 | `{:#010x}` of `v` is at least 10 characters, starts with "0x", continues with lowercase hex digits only, and those digits read back to `v` |
| `HexFormat.Hex010Width` | emulator.py:69 | `{:#010x}` of `v` is exactly 10 characters wide (8 digits) if and only if `v < 2^32` |
| `HexFormat.Hex010Injective` | emulator.py:69 | different values never format to the same text |

## Left out

- `start` and `stop` (emulator.py:28-42): they log, write PC and delegate to the engine's `emu_start` and `emu_stop`. `start` also calls `debug_dump` once `emu_start` returns (emulator.py:35); `stop` does not dump. Instruction execution is the engine's, not the session's.
- Logging (`log`, `linc`, `ldec`) and `hooks.register` (emulator.py:26): side effects and a module that is not part of this model.
- The file-system and clock work of `debug_dump` (emulator.py:64-66, 70-72): the output directory, the `time.time()` directory name, and opening and writing the files. The model returns the sequence of (name, bytes) pairs that would be written.
- `allocations` (emulator.py:50-51) is a list copy of the engine's `mem_regions()` report. The engine's region bookkeeping is not visible, nor is whether its `end` is inclusive. The model therefore takes that report as the `regions` parameter of `DebugDump` and `DumpArtifacts`, and asserts nothing relating it to `mapped`.
- The engine's `mem_map` itself: its alignment rule, the zero-filling of new memory, and writes to memory by the engine, the loaded binary or hooks. `memory` is the engine's byte store as given; `Alloc` records the request in `mapped` and leaves `memory` unchanged.
- Engine faults: an unmapped or failing `mem_read` or `mem_map` is excluded by preconditions. These are `Alloc`'s positive size and 32-bit bound, `ReadString`'s mapped terminator, and `DebugDump`'s readable regions. None of them is modelled as an error result.
- `Emulation.Emulator.Alloc`: does not model the engine's refusal of a zero size, a size that is not page-aligned, or an overlap with memory mapped by others; it requires a positive size that fits below 2^32.
- `HexFormat.Hex010` takes a natural number. Python's formatting of negative values ("-0x…") is not modelled, since addresses are never negative.
- The SP register is modelled only as the value written to it at construction.
