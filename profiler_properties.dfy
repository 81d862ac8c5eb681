/** Properties of the zone-timing engine that relate several operations:
    repeated zones on one slot, successive index allocations, the cached
    index of a dani_Profile call site, the report's rows and the frequency
    calibration. */
module ProfilerProperties {
  import opened Machine
  import opened DaniProfiler

  // ---------------------------------------------------------------------
  // Sequential zones on one slot

  /** One Begin/End pair: the zone's name and the CPU timer readings taken
      by dani_BeginProfilingZone and by dani_EndProfilingZone. */
  datatype Span = Span(name: Name, startTimer: u64, endTimer: u64)

  function SpanTicks(s: Span): u64
  {
    Sub64(s.endTimer, s.startTimer)
  }

  /** The slot after recording each span, in order, as a zone on slot index. */
  function RecordSpans(e: Entry, index: u32, spans: seq<Span>): Entry
  {
    if spans == [] then e
    else
      var last := spans[|spans| - 1];
      RecordZone(RecordSpans(e, index, spans[..|spans| - 1]),
                 BeginProfilingZone(last.name, index, last.startTimer), last.endTimer)
  }

  /** The true (unwrapped) sum of the spans' tick counts. */
  function TotalTicks(spans: seq<Span>): nat
  {
    if spans == [] then 0 else TotalTicks(spans[..|spans| - 1]) + SpanTicks(spans[|spans| - 1])
  }

  /** N sequential zones on a zero slot leave N hits, the sum of the N
      elapsed tick counts modulo 2^64, and the last zone's name; the hit
      counter then covers the ticks, as the report's division needs. */
  lemma {:induction false} SequentialZonesAccumulate(index: u32, spans: seq<Span>)
    requires |spans| < TWO_64
    ensures RecordSpans(ZERO_ENTRY, index, spans)
         == Entry(Wrap64(TotalTicks(spans)), |spans|, if spans == [] then Null else spans[|spans| - 1].name)
    ensures HitsCoverElapsed(RecordSpans(ZERO_ENTRY, index, spans))
  {
    if spans != [] {
      var init, last := spans[..|spans| - 1], spans[|spans| - 1];
      var before := RecordSpans(ZERO_ENTRY, index, init);
      SequentialZonesAccumulate(index, init);
      assert RecordSpans(ZERO_ENTRY, index, spans)
          == RecordZone(before, BeginProfilingZone(last.name, index, last.startTimer), last.endTimer);
      assert TotalTicks(spans) == TotalTicks(init) + SpanTicks(last);
      AddMod(TotalTicks(init), SpanTicks(last), TWO_64);
      assert Add64(before.elapsedTicks, SpanTicks(last)) == Wrap64(TotalTicks(spans));
    }
  }

  // ---------------------------------------------------------------------
  // Successive GetNextEntryIndex calls

  /** The outcomes of n successive calls starting from counter value c. */
  function Allocations(c: s32, n: nat, debug: bool): (r: seq<Allocation>)
    ensures |r| == n
    decreases n
  {
    if n == 0 then [] else [Allocate(c, debug)] + Allocations(NextCounter(c), n - 1, debug)
  }

  /** From a non-negative counter that does not reach the top, call i yields
      the counter plus i + 1, or the debug trap once that reaches the capacity. */
  lemma {:induction false} AllocationsFromCounter(c: s32, n: nat, debug: bool)
    requires 0 <= c && c + n <= S32_MAX
    ensures forall i :: 0 <= i < n ==>
      Allocations(c, n, debug)[i] == if debug && c + i + 1 >= ENTRIES_MAX then Trapped else Allocated(c + i + 1)
    decreases n
  {
    if n > 0 {
      AllocationsFromCounter(c + 1, n - 1, debug);
    }
  }

  /** From the zero-initialised counter the first index is 1 and indices are
      strictly increasing, hence never repeated and never 0. */
  lemma AllocatedIndicesIncrease(n: nat, debug: bool)
    requires n <= S32_MAX
    ensures n > 0 ==> Allocations(0, n, debug)[0] == Allocated(1)
    ensures forall i, j :: 0 <= i < j < n && Allocations(0, n, debug)[i].Allocated? && Allocations(0, n, debug)[j].Allocated? ==>
              0 < Allocations(0, n, debug)[i].index < Allocations(0, n, debug)[j].index
  {
    AllocationsFromCounter(0, n, debug);
  }

  /** In a debug build the first ENTRIES_MAX - 1 calls succeed and call
      number ENTRIES_MAX traps; without the check it returns ENTRIES_MAX,
      an index past the table. */
  lemma CapacityTrap()
    ensures forall i :: 0 <= i < ENTRIES_MAX - 1 ==> Allocations(0, ENTRIES_MAX, true)[i] == Allocated(i + 1)
    ensures Allocations(0, ENTRIES_MAX, true)[ENTRIES_MAX - 1] == Trapped
    ensures Allocations(0, ENTRIES_MAX, false)[ENTRIES_MAX - 1] == Allocated(ENTRIES_MAX)
  {
    AllocationsFromCounter(0, ENTRIES_MAX, true);
    AllocationsFromCounter(0, ENTRIES_MAX, false);
  }

  // ---------------------------------------------------------------------
  // The dani_Profile call site

  /** The state of a call site and the counter after n executions of the
      macro; a trap ends the run. */
  function RunSite(st: SiteState, n: nat, debug: bool): SiteState
    decreases n
  {
    if n == 0 then st
    else
      var r := ResolveSite(st, debug);
      if r.0.Trapped? then r.1 else RunSite(r.1, n - 1, debug)
  }

  /** A call site that holds an index never allocates again. */
  lemma {:induction false} CachedSiteStaysPut(st: SiteState, n: nat, debug: bool)
    requires st.cached != 0
    ensures RunSite(st, n, debug) == st
  {
    if n > 0 {
      CachedSiteStaysPut(st, n - 1, debug);
    }
  }

  /** However often a fresh call site runs, it allocates exactly once and
      keeps the index it got. */
  lemma SiteAllocatesOnce(c: s32, n: nat, debug: bool)
    requires n >= 1 && 0 <= c < S32_MAX
    requires !(debug && c + 1 >= ENTRIES_MAX)
    ensures RunSite(SiteState(0, c), n, debug) == SiteState(c + 1, c + 1)
  {
    CachedSiteStaysPut(SiteState(c + 1, c + 1), n - 1, debug);
  }

  // ---------------------------------------------------------------------
  // The report

  /** The report lists exactly the slots with a non-zero tick count, in
      increasing slot order, each with its own entry's figures. */
  lemma {:induction false} ReportRowsListUsedSlots(s: seq<Entry>)
    requires AllHitsCoverElapsed(s)
    ensures forall j :: 0 <= j < |ReportRows(s)| ==> ReportRows(s)[j].index < |s|
    ensures forall j :: 0 <= j < |ReportRows(s)| ==>
              var row := ReportRows(s)[j];
              s[row.index].elapsedTicks != 0 && row == RowOf(row.index, s[row.index])
    ensures forall j, k :: 0 <= j < k < |ReportRows(s)| ==> ReportRows(s)[j].index < ReportRows(s)[k].index
    ensures forall i :: 0 <= i < |s| && s[i].elapsedTicks != 0 ==> RowOf(i, s[i]) in ReportRows(s)
  {
    if s != [] {
      var init, last := s[..|s| - 1], s[|s| - 1];
      assert AllHitsCoverElapsed(init);
      ReportRowsListUsedSlots(init);
      var before := ReportRows(init);
      var tail := if last.elapsedTicks != 0 then [RowOf(|s| - 1, last)] else [];
      assert ReportRows(s) == before + tail;
      assert forall i :: 0 <= i < |init| ==> init[i] == s[i];
    }
  }

  // ---------------------------------------------------------------------
  // Calibration

  /** With timers advancing in a fixed ratio (rate CPU ticks per second of
      OS ticks) and no overflow, the estimate is exactly that rate. */
  lemma CalibrationExact(osFrequency: u64, cpuElapsed: u64, osElapsed: u64, rate: nat)
    requires osElapsed != 0
    requires osFrequency * cpuElapsed < TWO_64
    requires osFrequency * cpuElapsed == rate * osElapsed
    ensures EstimateFrequency(osFrequency, cpuElapsed, osElapsed) == rate
  {
    DivModUnique(rate * osElapsed, osElapsed, rate, 0);
  }

  /** A wait that rounds to zero OS ticks skips the loop: with the report's
      100 ms, any OS frequency below 10 Hz. */
  lemma ShortWaitIsZero(osFrequency: u64)
    ensures osFrequency * 100 < TWO_64 ==> (OSWaitTime(osFrequency, 100) == 0 <==> osFrequency < 10)
  {
  }

  /** An OS timer that never moves keeps a non-zero wait spinning forever:
      no reading lets the loop leave. */
  lemma StalledTimerNeverEnds(osReadings: seq<u64>, osStart: u64, osWaitTime: u64)
    requires osWaitTime != 0
    requires forall i :: 0 <= i < |osReadings| ==> osReadings[i] == osStart
    ensures !WaitEnds(osReadings, osStart, osWaitTime)
  {
  }

  // ---------------------------------------------------------------------
  // A session with two nested zones

  /** A session with two nested dani_Profile sites, both fresh: site A
      runs, and its block runs site B. A resolves its index before B does,
      so A gets slot 1 and B slot 2. Each slot holds its own zone's elapsed
      ticks and one hit; nothing is subtracted from the enclosing zone. */
  method NestedZones(sessionStart: u64, startA: u64, startB: u64, endB: u64, endA: u64, sessionEnd: u64)
    returns (p: Profiler, outer: CallSite, inner: CallSite)
    ensures p.Valid()
    ensures outer.entryIndex == 1 && inner.entryIndex == 2
    ensures p.entries[1] == Entry(Sub64(endA, startA), 1, Literal("A"))
    ensures p.entries[2] == Entry(Sub64(endB, startB), 1, Literal("B"))
    ensures p.startTicks == sessionStart && p.endTicks == sessionEnd
    ensures forall i :: 0 <= i < ENTRIES_MAX && i != 1 && i != 2 ==> p.entries[i] == ZERO_ENTRY
  {
    p := new Profiler();
    var counter := new EntryIndexCounter();
    outer := new CallSite();
    inner := new CallSite();
    p.BeginProfiling(sessionStart);
    var trappedA, zoneA := ProfileBegin(counter, outer, Literal("A"), startA, true);
    assert !trappedA;
    var trappedB, zoneB := ProfileBegin(counter, inner, Literal("B"), startB, true);
    assert !trappedB;
    p.EndProfilingZone(zoneB, endB);
    p.EndProfilingZone(zoneA, endA);
    p.EndProfiling(sessionEnd);
  }
}
