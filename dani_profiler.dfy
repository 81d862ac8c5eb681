/** The zone-timing engine of dani_profiler.h.

    The global `g_dani_profiler` becomes a `Profiler` object holding the entry
    table as an array and the session's start and end readings; the global
    entry-index counter becomes an `EntryIndexCounter` object, and each
    `dani_Profile` call site's static cached index a `CallSite` object.
    Every read of the CPU or OS timer is a parameter: the value the timer
    returns at that point of the operation. The `debug` parameters stand for
    a build without NDEBUG, where `Assert` traps; with `debug` false the
    check is compiled out. */
module DaniProfiler {
  import opened Machine

  /** DANI_PROFILER_ENTRIES_MAX, the size of the entry table (its default). */
  const ENTRIES_MAX: nat := 1024

  /** A `const s8 *` zone name: the null pointer or a string. */
  datatype Name = Null | Literal(text: string)

  /** One slot of the table: accumulated ticks, number of recorded zones and
      the name of the zone recorded last. */
  datatype Entry = Entry(elapsedTicks: u64, hitCounter: u64, name: Name)

  /** A slot as the zero-initialised table holds it. */
  const ZERO_ENTRY: Entry := Entry(0, 0, Null)

  /** The value dani_BeginProfilingZone returns and dani_EndProfilingZone consumes. */
  datatype Zone = Zone(name: Name, startTicks: u64, entryIndex: u32)

  // ---------------------------------------------------------------------
  // Zones

  /** dani_BeginProfilingZone: builds the zone from its arguments and the
      CPU timer reading taken inside it; no profiler state is involved. */
  function BeginProfilingZone(name: Name, index: u32, cpuTimer: u64): (zone: Zone)
    ensures zone.name == name && zone.entryIndex == index
    ensures zone.startTicks == cpuTimer
  {
    Zone(name, cpuTimer, index)
  }

  /** What dani_EndProfilingZone does to the zone's entry, given the CPU
      timer reading taken first thing in it: the elapsed ticks are added and
      the hit counter is incremented, both modulo 2^64, and the zone's name
      replaces the stored one. */
  function RecordZone(e: Entry, zone: Zone, cpuTimer: u64): (r: Entry)
    ensures Sub64(r.elapsedTicks, e.elapsedTicks) == Sub64(cpuTimer, zone.startTicks)
    ensures Sub64(r.hitCounter, e.hitCounter) == 1
    ensures r.name == zone.name
    ensures e.hitCounter < U64_MAX ==> r.hitCounter == e.hitCounter + 1 && HitsCoverElapsed(r)
  {
    Entry(Add64(e.elapsedTicks, Sub64(cpuTimer, zone.startTicks)), Add64(e.hitCounter, 1), zone.name)
  }

  /** The report divides a used slot's ticks by its hits: a slot that has
      accumulated ticks must have been hit. */
  predicate HitsCoverElapsed(e: Entry)
  {
    e.elapsedTicks != 0 ==> e.hitCounter != 0
  }

  predicate AllHitsCoverElapsed(s: seq<Entry>)
  {
    forall i :: 0 <= i < |s| ==> HitsCoverElapsed(s[i])
  }

  // ---------------------------------------------------------------------
  // The integer part of the report

  /** One reported slot: its index, name, hits, total ticks and average ticks. */
  datatype ReportRow = ReportRow(index: nat, name: Name, hits: u64, elapsedTicks: u64, averageTicks: u64)

  /** Without a CPU frequency only the session's total ticks are reported. */
  datatype Report = RawTicks(totalTicks: u64) | Timed(totalTicks: u64, rows: seq<ReportRow>)

  function RowOf(index: nat, e: Entry): (row: ReportRow)
    requires e.hitCounter != 0
    ensures row.index == index && row.name == e.name
    ensures row.hits == e.hitCounter && row.elapsedTicks == e.elapsedTicks
    ensures row.averageTicks * e.hitCounter <= e.elapsedTicks < (row.averageTicks + 1) * e.hitCounter
  {
    ReportRow(index, e.name, e.hitCounter, e.elapsedTicks, e.elapsedTicks / e.hitCounter)
  }

  /** The rows the report loop emits for the table s, in slot order: one per
      slot with a non-zero tick count. */
  function ReportRows(s: seq<Entry>): seq<ReportRow>
    requires AllHitsCoverElapsed(s)
  {
    if s == [] then []
    else
      var last := s[|s| - 1];
      ReportRows(s[..|s| - 1]) + (if last.elapsedTicks != 0 then [RowOf(|s| - 1, last)] else [])
  }

  // ---------------------------------------------------------------------
  // The profiler

  class Profiler {
    var entries: array<Entry>
    var startTicks: u64
    var endTicks: u64

    ghost predicate Valid()
      reads this
    {
      entries.Length == ENTRIES_MAX
    }

    predicate AveragesDefined()
      reads this, entries
    {
      AllHitsCoverElapsed(entries[..])
    }

    /** The zero-initialised `g_dani_profiler`. */
    constructor ()
      ensures Valid() && fresh(entries)
      ensures forall i :: 0 <= i < entries.Length ==> entries[i] == ZERO_ENTRY
      ensures startTicks == 0 && endTicks == 0
      ensures AveragesDefined()
    {
      entries := new Entry[ENTRIES_MAX](_ => ZERO_ENTRY);
      startTicks, endTicks := 0, 0;
    }

    /** dani_BeginProfiling: stamps the session start. The table is not
        cleared. The warm-up timer reads before it have no effect. */
    method BeginProfiling(cpuTimer: u64)
      modifies this`startTicks
      ensures startTicks == cpuTimer
      ensures endTicks == old(endTicks) && entries == old(entries)
      ensures unchanged(entries)
    {
      startTicks := cpuTimer;
    }

    /** dani_EndProfiling: stamps the session end and nothing else. */
    method EndProfiling(cpuTimer: u64)
      modifies this`endTicks
      ensures endTicks == cpuTimer
      ensures startTicks == old(startTicks) && entries == old(entries)
      ensures unchanged(entries)
    {
      endTicks := cpuTimer;
    }

    /** dani_EndProfilingZone: folds the zone into its slot and into no other.
        The slot is not bounds-checked in C; the index must lie in the table. */
    method EndProfilingZone(zone: Zone, cpuTimer: u64)
      requires Valid() && zone.entryIndex < ENTRIES_MAX
      modifies entries
      ensures entries[zone.entryIndex] == RecordZone(old(entries[zone.entryIndex]), zone, cpuTimer)
      ensures forall i :: 0 <= i < entries.Length && i != zone.entryIndex ==> entries[i] == old(entries[i])
      ensures old(AveragesDefined()) && old(entries[zone.entryIndex].hitCounter) < U64_MAX ==> AveragesDefined()
    {
      var elapsed := Sub64(cpuTimer, zone.startTicks);
      var entry := entries[zone.entryIndex];
      entries[zone.entryIndex] := Entry(Add64(entry.elapsedTicks, elapsed), Add64(entry.hitCounter, 1), zone.name);
    }

    /** The integer part of dani_PrintProfilingResults, given the CPU frequency
        it estimates: the session's total ticks, and, when the frequency is
        non-zero, one row per slot with ticks, carrying the average per hit. */
    method ProfilingResults(cpuFrequency: u64) returns (report: Report)
      requires Valid() && AveragesDefined()
      ensures cpuFrequency == 0 ==> report == RawTicks(Sub64(endTicks, startTicks))
      ensures cpuFrequency != 0 ==> report == Timed(Sub64(endTicks, startTicks), ReportRows(entries[..]))
    {
      var total := Sub64(endTicks, startTicks);
      if cpuFrequency == 0 {
        return RawTicks(total);
      }
      var rows: seq<ReportRow> := [];
      var i := 0;
      while i < entries.Length
        invariant 0 <= i <= entries.Length
        invariant rows == ReportRows(entries[..i])
      {
        var entry := entries[i];
        assert entries[..i + 1][..i] == entries[..i];
        if entry.elapsedTicks != 0 {
          rows := rows + [RowOf(i, entry)];
        }
        i := i + 1;
      }
      assert entries[..i] == entries[..];
      report := Timed(total, rows);
    }
  }

  // ---------------------------------------------------------------------
  // Entry indices

  /** The outcome of one GetNextEntryIndex call: the index returned, or the
      debug build's trap on an index outside 1 .. ENTRIES_MAX - 1. */
  datatype Allocation = Allocated(index: u32) | Trapped

  /** _InterlockedIncrement on the signed 32-bit counter, wrapping at the top. */
  function NextCounter(c: s32): (r: s32)
    ensures c < S32_MAX ==> r == c + 1
    ensures c == S32_MAX ==> r == S32_MIN
  {
    if c == S32_MAX then S32_MIN else c + 1
  }

  /** The (u32) cast of the incremented counter. */
  function IndexOf(c: s32): (r: u32)
    ensures c >= 0 ==> r == c
    ensures c < 0 ==> r == c + TWO_32
  {
    Wrap32(c)
  }

  /** What GetNextEntryIndex returns when the counter holds c. */
  function Allocate(c: s32, debug: bool): (a: Allocation)
    ensures 0 <= c < S32_MAX && a.Allocated? ==> a.index == c + 1 && a.index != 0
    ensures 0 <= c < S32_MAX ==> (a.Trapped? <==> debug && c + 1 >= ENTRIES_MAX)
    ensures !debug ==> a.Allocated?
  {
    var result := IndexOf(NextCounter(c));
    if debug && !(result != 0 && result < ENTRIES_MAX) then Trapped else Allocated(result)
  }

  class EntryIndexCounter {
    var counter: s32

    /** `g_dani_profiler_entry_index_conter`, zero-initialised. */
    constructor ()
      ensures counter == 0
    {
      counter := 0;
    }

    /** GetNextEntryIndex: the counter is incremented before the check, so
        it advances even on the call that traps. */
    method GetNextEntryIndex(debug: bool) returns (a: Allocation)
      modifies this
      ensures counter == NextCounter(old(counter))
      ensures a == Allocate(old(counter), debug)
    {
      counter := NextCounter(counter);
      var result := IndexOf(counter);
      if debug && !(result != 0 && result < ENTRIES_MAX) {
        return Trapped;
      }
      a := Allocated(result);
    }
  }

  // ---------------------------------------------------------------------
  // The dani_Profile macro

  /** A dani_Profile call site's `static u32 <var>entry_index`, together with
      the global counter it allocates from. */
  datatype SiteState = SiteState(cached: u32, counter: s32)

  /** The index a dani_Profile execution uses, and the state after it: the
      counter is consulted only while the cached index is 0. */
  function ResolveSite(st: SiteState, debug: bool): (r: (Allocation, SiteState))
    ensures st.cached != 0 ==> r == (Allocated(st.cached), st)
    ensures st.cached == 0 ==> r.0 == Allocate(st.counter, debug) && r.1.counter == NextCounter(st.counter)
    ensures st.cached == 0 && r.0.Trapped? ==> r.1.cached == 0
    ensures st.cached == 0 && r.0.Allocated? ==> r.1.cached == r.0.index
  {
    if st.cached != 0 then (Allocated(st.cached), st)
    else
      var a := Allocate(st.counter, debug);
      (a, SiteState(if a.Allocated? then a.index else 0, NextCounter(st.counter)))
  }

  class CallSite {
    var entryIndex: u32

    constructor ()
      ensures entryIndex == 0
    {
      entryIndex := 0;
    }
  }

  /** The part of `dani_Profile(var, name, block)` that runs before the
      block: resolve the call site's cached index, then begin a zone on it.
      A trap during the allocation ends the execution before any zone
      begins. The block runs next and may itself profile (a nested
      dani_Profile resolves its own site only then); after it the macro ends
      the zone with Profiler.EndProfilingZone. */
  method ProfileBegin(counter: EntryIndexCounter, site: CallSite, name: Name, startTimer: u64, debug: bool)
    returns (trapped: bool, zone: Zone)
    modifies counter, site
    ensures var r := ResolveSite(SiteState(old(site.entryIndex), old(counter.counter)), debug);
      && trapped == r.0.Trapped?
      && SiteState(site.entryIndex, counter.counter) == r.1
    ensures !trapped ==> zone == BeginProfilingZone(name, site.entryIndex, startTimer)
  {
    if site.entryIndex == 0 {
      var a := counter.GetNextEntryIndex(debug);
      if a.Trapped? {
        return true, BeginProfilingZone(name, 0, startTimer);
      }
      site.entryIndex := a.index;
    }
    trapped := false;
    zone := BeginProfilingZone(name, site.entryIndex, startTimer);
  }

  // ---------------------------------------------------------------------
  // CPU timer frequency

  /** The OS ticks the calibration waits for: `os_frequency * wait_time_ms / 1000` in u64. */
  function OSWaitTime(osFrequency: u64, waitTimeMs: u64): (r: u64)
    ensures r * 1000 <= Mul64(osFrequency, waitTimeMs) < (r + 1) * 1000
  {
    Mul64(osFrequency, waitTimeMs) / 1000
  }

  /** The frequency estimate from the measured tick counts; 0 when no OS
      time elapsed. */
  function EstimateFrequency(osFrequency: u64, cpuElapsed: u64, osElapsed: u64): (r: u64)
    ensures osElapsed == 0 ==> r == 0
    ensures osElapsed != 0 ==> r * osElapsed <= Mul64(osFrequency, cpuElapsed) < (r + 1) * osElapsed
  {
    if osElapsed == 0 then 0 else Mul64(osFrequency, cpuElapsed) / osElapsed
  }

  /** The busy-wait can leave: the wait is zero, or some reading is far enough
      past the start. Without this the C loop spins forever. */
  predicate WaitEnds(osReadings: seq<u64>, osStart: u64, osWaitTime: u64)
  {
    osWaitTime == 0 || exists i :: 0 <= i < |osReadings| && Sub64(osReadings[i], osStart) >= osWaitTime
  }

  /** The busy-wait of ReadCPUTimerFrequency: poll the OS timer until at
      least osWaitTime ticks have passed since osStart. */
  method WaitForOSTicks(osReadings: seq<u64>, osStart: u64, osWaitTime: u64) returns (osElapsed: u64, polls: nat)
    requires WaitEnds(osReadings, osStart, osWaitTime)
    ensures polls <= |osReadings|
    ensures polls == 0 <==> osWaitTime == 0
    ensures polls == 0 ==> osElapsed == 0
    ensures polls > 0 ==> osElapsed == Sub64(osReadings[polls - 1], osStart) >= osWaitTime
    ensures forall j :: 0 <= j < polls - 1 ==> Sub64(osReadings[j], osStart) < osWaitTime
  {
    osElapsed := 0;
    polls := 0;
    while osElapsed < osWaitTime
      invariant polls <= |osReadings|
      invariant osWaitTime == 0 ==> polls == 0
      invariant polls == 0 ==> osElapsed == 0
      invariant polls > 0 ==> osElapsed == Sub64(osReadings[polls - 1], osStart)
      invariant forall j :: 0 <= j < polls - 1 ==> Sub64(osReadings[j], osStart) < osWaitTime
      decreases |osReadings| - polls
    {
      assert forall j :: 0 <= j < polls ==> Sub64(osReadings[j], osStart) < osWaitTime;
      ghost var i :| 0 <= i < |osReadings| && Sub64(osReadings[i], osStart) >= osWaitTime;
      assert polls <= i;
      var osEnd := osReadings[polls];
      osElapsed := Sub64(osEnd, osStart);
      polls := polls + 1;
    }
  }

  /** ReadCPUTimerFrequency. The OS frequency, the start readings of both
      timers, the successive OS timer readings of the busy-wait and the final
      CPU reading are parameters; `polls` is how many OS readings the loop took. */
  method ReadCPUTimerFrequency(waitTimeMs: u64, osFrequency: u64, cpuStart: u64, osStart: u64,
                               osReadings: seq<u64>, cpuEnd: u64) returns (frequency: u64, polls: nat)
    requires WaitEnds(osReadings, osStart, OSWaitTime(osFrequency, waitTimeMs))
    ensures polls <= |osReadings|
    ensures polls == 0 <==> OSWaitTime(osFrequency, waitTimeMs) == 0
    ensures polls == 0 ==> frequency == 0
    ensures polls > 0 ==>
      && Sub64(osReadings[polls - 1], osStart) >= OSWaitTime(osFrequency, waitTimeMs)
      && frequency == EstimateFrequency(osFrequency, Sub64(cpuEnd, cpuStart), Sub64(osReadings[polls - 1], osStart))
    ensures forall j :: 0 <= j < polls - 1 ==> Sub64(osReadings[j], osStart) < OSWaitTime(osFrequency, waitTimeMs)
  {
    var osWaitTime := OSWaitTime(osFrequency, waitTimeMs);
    var osElapsed;
    osElapsed, polls := WaitForOSTicks(osReadings, osStart, osWaitTime);
    var cpuElapsed := Sub64(cpuEnd, cpuStart);
    frequency := 0;
    if osElapsed != 0 {
      frequency := Mul64(osFrequency, cpuElapsed) / osElapsed;
    }
  }
}
