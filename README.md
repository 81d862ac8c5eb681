# danilib profiler and base helpers, modelled in Dafny

This project models the zone-timing engine of danilib's `dani_profiler.h` and
the integer helper macros of `dani_base.h` that it builds on.

The profiler keeps one global table of `DANI_PROFILER_ENTRIES_MAX` (1024)
entries. Each entry holds the accumulated elapsed ticks, a hit counter and the
name of the zone recorded last. The table also holds the session's start and
end ticks.

- `dani_BeginProfilingZone` returns a zone value: name, slot index, start ticks.
- `dani_EndProfilingZone` folds that zone into its slot. It adds the elapsed
  ticks and one hit, both modulo 2^64, and overwrites the name.
- `GetNextEntryIndex` increments a global signed 32-bit counter. A build
  without NDEBUG traps unless the new index is non-zero and below the
  capacity.
- The `dani_Profile` macro caches a call site's index in a static variable and
  allocates only while that variable is 0.
- `ReadCPUTimerFrequency` busy-waits on the OS timer for a given number of
  milliseconds, then scales the CPU ticks by the OS frequency.

Files:

- `machine.dfy` (module `Machine`): C fixed-width integers as subset types of
  `int`, with wrap-around written out. Bitwise AND is defined bit by bit,
  `~` is `2^64 - 1 - x`, and `<<` is multiplication by 2^k modulo 2^64 (the C
  standard's definition). The module also holds the modular-arithmetic and
  AND lemmas.
- `dani_base.dfy` (module `DaniBase`): the helper macros as functions, with
  their properties.
- `dani_profiler.dfy` (module `DaniProfiler`): the entry, zone and report
  datatypes. Three classes hold the state: `Profiler` (the global table),
  `EntryIndexCounter` (the global counter) and `CallSite` (a macro's static
  index). The module also has the calibration loop.
- `profiler_properties.dfy` (module `ProfilerProperties`): lemmas that relate
  several operations, and a two-zone nested session.

Every timer read becomes a parameter: the value the timer returns at that
point. The calibration's OS timer readings are a sequence. The `debug`
parameters stand for a build without NDEBUG, where `Assert` is active.

Behaviour of the code that the model keeps:

- Each slot accumulates inclusive elapsed ticks only: a nested zone's ticks
  are also counted in the enclosing zone's slot (`NestedZones`).
- `dani_BeginProfiling` does not zero the table. It only stamps `start_ticks`.
- With an OS timer that never advances, the busy-wait spins forever unless
  the wait rounds down to 0 OS ticks (`StalledTimerNeverEnds`).
- Exceeding the capacity is fatal only in builds with asserts. Without them,
  `GetNextEntryIndex` returns the out-of-range index (`CapacityTrap`).

## Model

| member | source | states |
|---|---|---|
| `DaniBase.IsTrue` | src/dani_base.h:64 | every non-zero value is true, B32_TRUE among them; IsTrue agrees with IsSuccess on every value |
| `DaniBase.IsFalse` | src/dani_base.h:64-65 | IsFalse is the exact complement of IsTrue |
| `DaniBase.IsSuccess` | src/dani_base.h:67-68 | IsSuccess is the exact complement of IsFailure |
| `DaniBase.IsFailure` | src/dani_base.h:68 | true exactly for the value B32_FAILURE |
| `DaniBase.KiB` | src/dani_base.h:71 | the operand converted to u64 and shifted by 10 is x * 2^10 modulo 2^64 |
| `DaniBase.MiB` | src/dani_base.h:72 | x * 2^20 modulo 2^64 |
| `DaniBase.GiB` | src/dani_base.h:73 | x * 2^30 modulo 2^64 |
| `DaniBase.TiB` | src/dani_base.h:74 | x * 2^40 modulo 2^64 |
| `DaniBase.BinaryUnitsChain` | src/dani_base.h:71-74 | each binary unit is KiB of the unit below it, wrap-around included |
| `DaniBase.BinaryUnitsRoundTrip` | src/dani_base.h:71-74 | below 2^24, dividing by the unit gives back the count (no overflow) |
| `DaniBase.Kilo` | src/dani_base.h:76 | x * 1000 exactly when that fits in u64 |
| `DaniBase.Mega` | src/dani_base.h:77 | the nested `Kilo(x) * 1000` equals x * 10^6 modulo 2^64 |
| `DaniBase.Giga` | src/dani_base.h:78 | x * 10^9 modulo 2^64 |
| `DaniBase.Tera` | src/dani_base.h:79 | x * 10^12 modulo 2^64 |
| `DaniBase.Thousand` | src/dani_base.h:81 | the same value as Kilo: x * 1000 modulo 2^64 |
| `DaniBase.Million` | src/dani_base.h:82 | the same value as Mega: x * 10^6 modulo 2^64 |
| `DaniBase.Billion` | src/dani_base.h:83 | the same value as Giga: x * 10^9 modulo 2^64 |
| `DaniBase.Trillion` | src/dani_base.h:84 | the same value as Tera: x * 10^12 modulo 2^64 |
| `DaniBase.Abs` | src/dani_base.h:109 | non-negative and equal to x or -x for every s64 except the minimum, which maps to itself |
| `DaniBase.Min` | src/dani_base.h:110 | returns one of its operands and is no greater than either |
| `DaniBase.Max` | src/dani_base.h:111 | returns one of its operands and is no less than either |
| `DaniBase.ClampCeiling` | src/dani_base.h:113 | never above the ceiling; x itself when x is at or below it |
| `DaniBase.ClampFloor` | src/dani_base.h:114 | never below the floor; x itself when x is at or above it |
| `DaniBase.Clamp` | src/dani_base.h:115 | for floor <= ceiling: lies in [floor, ceiling], is x when x is in range, and is the violated bound otherwise; for an empty range it is the ceiling |
| `DaniBase.LowestBitIsOnlyBit` | src/dani_base.h:117 | for x >= 1, (x - 1) & x is 0 exactly when x is a power of two |
| `DaniBase.IsPower2` | src/dani_base.h:117 | true exactly when x is 0 or a power of two |
| `DaniBase.IsPower2Exponent` | src/dani_base.h:117 | true exactly when x is 0 or 2^k for some k below 64 |
| `DaniBase.AlignPower2` | src/dani_base.h:118 | for a power-of-two alignment: the wrapped sum x + alignment - 1 rounded down to a multiple of the alignment |
| `DaniBase.AlignMask` | src/dani_base.h:118 | for a power of two a, masking with ~(a - 1) rounds down to a multiple of a |
| `DaniBase.AlignPower2RoundsUp` | src/dani_base.h:118 | for a power-of-two alignment and no overflow: a multiple of a, at least x and below x + a, and x itself when x is aligned |
| `DaniBase.AlignPower2Overflow` | src/dani_base.h:118 | when x + a - 1 overflows u64, the result wraps to 0 |
| `DaniBase.ByteSplat16AsWritten` | src/dani_base.h:121 | as written, with C's integer promotion and truncating division, the macro is 0 for every operand |
| `DaniBase.ByteSplat16AsWrittenMissesSplat` | src/dani_base.h:121 | as written, the byte 0x01 does not splat to 0x0101 |
| `DaniBase.ByteSplat16` | src/dani_base.h:121 | corrected: for a byte value, both bytes of the u16 result equal it |
| `DaniBase.ByteSplat32` | src/dani_base.h:122 | for a byte value, all four bytes of the u32 result equal it |
| `DaniBase.ByteSplat64` | src/dani_base.h:123 | for a byte value, all eight bytes of the u64 result equal it |
| `DaniProfiler.BeginProfilingZone` | src/dani_profiler.h:267-275 | a function, so no profiler state is touched; the zone carries the given name and index and the timer reading as its start |
| `DaniProfiler.RecordZone` | src/dani_profiler.h:277-285 | the new elapsed ticks exceed the old by end - start modulo 2^64; the hit counter rises by 1 modulo 2^64; the zone's name replaces the stored one; without counter wrap, the hits cover the ticks |
| `DaniProfiler.Profiler.constructor` | src/dani_profiler.h:118 | the zero-initialised global: every entry is zero with a null name, and both session ticks are 0 |
| `DaniProfiler.Profiler.BeginProfiling` | src/dani_profiler.h:171-180 | writes start_ticks only; end_ticks and the table are unchanged |
| `DaniProfiler.Profiler.EndProfiling` | src/dani_profiler.h:182-184 | writes end_ticks only; start_ticks and the table are unchanged |
| `DaniProfiler.Profiler.EndProfilingZone` | src/dani_profiler.h:277-285 | the zone's slot becomes RecordZone of its old value; every other slot and both session ticks are unchanged; "ticks imply hits" is preserved while the counter does not wrap |
| `DaniProfiler.Profiler.ProfilingResults` | src/dani_profiler.h:228-256 | total = end - start modulo 2^64; with frequency 0 only the total is reported; otherwise one row per slot with non-zero ticks, in slot order |
| `DaniProfiler.RowOf` | src/dani_profiler.h:248 | the average is the floor of ticks over hits: average * hits <= ticks < (average + 1) * hits |
| `DaniProfiler.NextCounter` | src/dani_profiler.h:262 | the interlocked increment is +1, wrapping from S32_MAX to S32_MIN |
| `DaniProfiler.IndexOf` | src/dani_profiler.h:262 | the (u32) cast keeps non-negative counters and adds 2^32 to negative ones |
| `DaniProfiler.Allocate` | src/dani_profiler.h:261-265 | from a non-negative counter below the top: returns counter + 1 (never 0); traps exactly in debug builds when that reaches ENTRIES_MAX; never traps without asserts |
| `DaniProfiler.EntryIndexCounter.constructor` | src/dani_profiler.h:259 | the counter starts at 0 |
| `DaniProfiler.EntryIndexCounter.GetNextEntryIndex` | src/dani_profiler.h:261-265 | the counter advances by the interlocked increment even when the call traps; the outcome is Allocate of the old counter |
| `DaniProfiler.ResolveSite` | src/dani_profiler.h:102-107 | a cached non-zero index is reused with the counter untouched; a zero cache allocates once and caches the index unless the allocation trapped |
| `DaniProfiler.CallSite.constructor` | src/dani_profiler.h:103 | the static cached index starts at 0 |
| `DaniProfiler.ProfileBegin` | src/dani_profiler.h:102-107 | the site and counter follow ResolveSite; without a trap, the zone begun carries the name, the resolved index and the start reading |
| `DaniProfiler.OSWaitTime` | src/dani_profiler.h:147 | the floor of (os_frequency * wait_time_ms modulo 2^64) / 1000 |
| `DaniProfiler.EstimateFrequency` | src/dani_profiler.h:160-168 | 0 when no OS ticks elapsed; otherwise the floor of (os_frequency * cpu_elapsed modulo 2^64) / os_elapsed |
| `DaniProfiler.WaitForOSTicks` | src/dani_profiler.h:152-158 | the loop is skipped exactly when the wait is 0; otherwise it stops at the first reading at least the wait past the start, and every earlier reading was short of it |
| `DaniProfiler.ReadCPUTimerFrequency` | src/dani_profiler.h:145-169 | the loop is skipped exactly when the wait is 0, and then the result is 0; otherwise it stops at the first reading at least the wait past the start, and the result is EstimateFrequency of that elapsed time |
| `ProfilerProperties.SequentialZonesAccumulate` | src/dani_profiler.h:277-285 | N sequential zones on a zero slot give N hits, the sum of their elapsed ticks modulo 2^64, the last zone's name, and hits that cover the ticks |
| `ProfilerProperties.AllocationsFromCounter` | src/dani_profiler.h:259-265 | call i from counter c yields c + i + 1, or a debug trap once that reaches the capacity |
| `ProfilerProperties.AllocatedIndicesIncrease` | src/dani_profiler.h:259-265 | from the initial counter the first index is 1 and the returned indices strictly increase, so they are never 0 or repeated |
| `ProfilerProperties.CapacityTrap` | src/dani_profiler.h:263 | with asserts, calls 1 to ENTRIES_MAX - 1 succeed and call ENTRIES_MAX traps; without asserts, call ENTRIES_MAX returns ENTRIES_MAX |
| `ProfilerProperties.CachedSiteStaysPut` | src/dani_profiler.h:102-107 | a call site holding a non-zero index never changes it or the counter |
| `ProfilerProperties.SiteAllocatesOnce` | src/dani_profiler.h:102-107 | any number of runs of a fresh call site allocate exactly once and keep that index |
| `ProfilerProperties.ReportRowsListUsedSlots` | src/dani_profiler.h:238-253 | the report's rows are exactly the slots with non-zero ticks, in increasing slot order, each with its own entry's figures |
| `ProfilerProperties.CalibrationExact` | src/dani_profiler.h:160-166 | with timers in a fixed ratio and no overflow, the estimate is exactly that ratio |
| `ProfilerProperties.ShortWaitIsZero` | src/dani_profiler.h:147 | with the report's 100 ms wait and no overflow, the wait is 0 ticks exactly when the OS frequency is below 10 Hz |
| `ProfilerProperties.StalledTimerNeverEnds` | src/dani_profiler.h:155-158 | an OS timer that never moves gives the loop no exit when the wait is non-zero |
| `ProfilerProperties.NestedZones` | src/dani_profiler.h:102-110 | two fresh nested dani_Profile sites: the outer one resolves first and gets slot 1, the inner slot 2; each slot records only its own zone's ticks and one hit; every other slot stays zero |

## Left out

- Report printing (`PrintProfilingTimes`, `PrintCPUFrequency`, percentages and `printf` output of `dani_PrintProfilingResults`): floating point and text output. Only the integer parts are modelled: the total, the used-slot filter and the average.
- DaniProfiler.Profiler.ProfilingResults: takes the CPU frequency as a parameter. The frequency comes from a call to `ReadCPUTimerFrequency(100)`, which is modelled on its own.
- Timer intrinsics (`QueryPerformanceCounter`, `QueryPerformanceFrequency`, `__rdtsc`, `__rdtscp`, `__faststorefence`): foreign platform calls. Their readings are parameters.
- The order of timer reads (start tick read last in Begin, end tick read first in End): a parameter model cannot express when a reading is taken.
- The warm-up reads in `dani_BeginProfiling`: they have no observable effect.
- Atomicity of `_InterlockedIncrement` and all thread safety: the library disclaims thread safety. The increment is a plain increment.
- `Trap()`/`__debugbreak`: the trap is the `Trapped` outcome. Continuing after the debugger break is not modelled.
- Preprocessor-only macros (`Statement`, `Unused`, `ArrayCount`, `Stringify*`, `StringifyCombine`, `NotImplemented`, `AssertAlways`) and the float constants `F32_MAX`/`F64_MAX`: they have no integer semantics to prove. `Assert` is the `debug` parameter.
- `dani_ProfileFunction`: it is `dani_Profile` with the name `__func__`. `ProfileBegin` covers it with any name.
- The `profile_block` of `dani_Profile` is arbitrary caller code. The model runs the macro as `ProfileBegin`, then whatever the block does (nested sites included, as in `NestedZones`), then `Profiler.EndProfilingZone`.
- The `DANI_PROFILER_STATIC` linkage switch, and `DANI_PROFILER_ENTRIES_MAX` values other than the default 1024.
- Name pointers: a `const s8 *` is modelled as null or a string value. Pointer identity is not modelled.
- DaniProfiler.Profiler.EndProfilingZone: requires the slot index to lie in the table. C does not check it, and an index outside the table corrupts memory.
- DaniProfiler.Profiler.EndProfilingZone: "ticks imply hits" is preserved only while the slot's hit counter is below 2^64 - 1. After 2^64 hits the counter wraps to 0, and the report's average would divide by zero.
- DaniProfiler.ReadCPUTimerFrequency: requires some reading to end the wait. The C loop spins forever otherwise (see `StalledTimerNeverEnds`).
- DaniBase.Kilo: the decimal units are stated for u64 operands only. The C macros multiply in the operand's own type, so a signed operand can overflow, which is undefined. With a plain 32-bit `int` operand this is common: `Tera` overflows for every non-zero operand (10^12 > 2^31 - 1), `Giga` from 3 up, `Mega` from 2148 up and `Kilo` from 2147484 up.
- DaniBase.Abs: C leaves `-x` undefined for the signed minimum. The model takes the two's-complement result, which is the minimum itself.
- DaniBase.Min: Min, Max and the Clamp macros are stated on mathematical integers. C's usual arithmetic conversions between mixed signed and unsigned operands are not modelled.
- DaniBase.ByteSplat32: assumes a 32-bit `unsigned long`, as on the compiler this library targets (it uses `__int8`-style types).
- DaniBase.IsPower2: stated for a u64 operand.
- DaniBase.AlignPower2RoundsUp: stated for a u64 operand and a power-of-two alignment. For other alignments the macro's result has no meaning to prove.

## Findings

| source | as written | input that shows it | evidently intended | confidence | as-written member | corrected member |
|---|---|---|---|---|---|---|
| src/dani_base.h:121 | `~(u16)U16_MIN` promotes the u16 zero to `int`, so the complement is -1. C's truncating division gives -1 / 255 == 0, so ByteSplat16 is 0 for every operand | `ByteSplat16(1)` gives 0 | `0x0101 * x` in u16, with both bytes equal to the byte x | high by the C integer-promotion rules; not executed | `DaniBase.ByteSplat16AsWrittenMissesSplat` | `DaniBase.ByteSplat16` |
