/**
 * Delay training: the choice of a delay tap from error counts (task_cmd.c) and
 * the saturating error counters it reads (subsystem_adc.sv).
 */
module DelayTraining {
  import opened Bits

  const TAPS: int := 512
  const NUM_ADC: int := 16

  /** Taps lo .. hi-1 saw no errors. */
  ghost predicate Clean(errors: seq<u32>, lo: int, hi: int) {
    0 <= lo <= hi <= |errors| && forall k :: lo <= k < hi ==> errors[k] == 0
  }

  /** The leftmost of the longest clean runs; (0, 0) when every tap saw errors. */
  ghost predicate LongestRun(errors: seq<u32>, start: int, len: int) {
    && Clean(errors, start, start + len)
    && (forall lo, hi :: Clean(errors, lo, hi) ==> hi - lo <= len)
    && (forall lo, hi :: Clean(errors, lo, hi) && hi - lo == len ==> start <= lo)
  }

  /** The tap in the middle of that run. */
  ghost predicate MidOfLongest(errors: seq<u32>, mid: int) {
    exists start, len :: LongestRun(errors, start, len) && mid == start + len / 2
  }

  /** What the loop knows after `cur` taps: the best finished run, and the run that ends at `cur`. */
  ghost predicate Progress(errors: seq<u32>, cur: int, pos: int, run: int, maxPos: int, maxRun: int) {
    && 0 <= run <= cur <= |errors|
    && (run > 0 ==> pos == cur - run)
    && Clean(errors, cur - run, cur)
    && (cur - run > 0 ==> errors[cur - run - 1] != 0)
    && Clean(errors, maxPos, maxPos + maxRun)
    && (maxRun > 0 ==> maxPos + maxRun <= cur - run) && (maxRun == 0 ==> maxPos == 0)
    && (forall lo, hi :: Clean(errors, lo, hi) && hi <= cur - run ==> hi - lo <= maxRun)
    && (forall lo, hi :: Clean(errors, lo, hi) && hi <= cur - run && hi - lo == maxRun ==> maxPos <= lo)
  }

  lemma {:induction false} Extend(errors: seq<u32>, cur: int, pos: int, run: int, maxPos: int, maxRun: int)
    requires Progress(errors, cur, pos, run, maxPos, maxRun) && cur < |errors|
    ensures errors[cur] == 0 ==> Progress(errors, cur + 1, if run == 0 then cur else pos, run + 1, maxPos, maxRun)
    ensures errors[cur] != 0 ==>
              Progress(errors, cur + 1, pos, 0,
                       if maxRun < run then pos else maxPos, if maxRun < run then run else maxRun)
  {
    if errors[cur] != 0 {
      Split(errors, cur, pos, run, maxPos, maxRun);
      forall lo, hi | Clean(errors, lo, hi) && hi == cur + 1
        ensures lo == hi
      {
      }
    }
  }

  /** A clean stretch among the first `cur` taps lies before the current run or inside it. */
  lemma {:induction false} Split(errors: seq<u32>, cur: int, pos: int, run: int, maxPos: int, maxRun: int)
    requires Progress(errors, cur, pos, run, maxPos, maxRun)
    ensures forall lo, hi :: Clean(errors, lo, hi) && hi <= cur ==> hi <= cur - run || cur - run <= lo
  {
    if cur - run > 0 {
      assert errors[cur - run - 1] != 0;
    }
  }

  /** The final comparison, for a run that reaches the last tap. */
  lemma {:induction false} Finish(errors: seq<u32>, pos: int, run: int, maxPos: int, maxRun: int)
    requires Progress(errors, |errors|, pos, run, maxPos, maxRun)
    ensures LongestRun(errors, if maxRun < run then pos else maxPos, if maxRun < run then run else maxRun)
  {
    Split(errors, |errors|, pos, run, maxPos, maxRun);
  }

  /** find_mid_of_longest_run, on one channel's row of the error counters. */
  method FindMidOfLongestRun(errors: array2<u32>, ch: nat) returns (mid: u32)
    requires ch < errors.Length0 && errors.Length1 == TAPS
    ensures MidOfLongest(Row(errors, ch), mid)
  {
    var run, pos, maxPos, maxRun := 0, 0, 0, 0;
    ghost var row := Row(errors, ch);
    for cur := 0 to TAPS
      invariant Progress(row, cur, pos, run, maxPos, maxRun)
    {
      Extend(row, cur, pos, run, maxPos, maxRun);
      if errors[ch, cur] == 0 {
        if run == 0 {
          pos := cur;
        }
        run := run + 1;
      } else {
        if maxRun < run {
          maxPos, maxRun := pos, run;
        }
        run := 0;
      }
    }
    Finish(row, pos, run, maxPos, maxRun);
    if maxRun < run {
      maxRun, maxPos := run, pos;
    }
    mid := maxPos + maxRun / 2;
    assert LongestRun(Row(errors, ch), maxPos, maxRun);
  }

  ghost function Row(errors: array2<u32>, ch: nat): (r: seq<u32>)
    requires ch < errors.Length0
    reads errors
    ensures |r| == errors.Length1
  {
    seq(errors.Length1, n requires 0 <= n < errors.Length1 reads errors => errors[ch, n])
  }

  // word indices of the registers, and the commands written to the control register
  const TEST_DATA: nat := 0x00 / 4
  const CTRL: nat := 0x48 / 4
  const DELAY_IN: nat := 0x60 / 4
  const RESET_IN_TEST: u32 := 0xD000_0000
  const RUN_TEST: u32 := 0xC000_0000
  const RESET: u32 := 0x9000_0000
  const RUN: u32 := 0x8000_0000

  /** What software does to the register map, sleeps included. */
  datatype Access = Write(index: nat, value: u32) | Wait(us: nat)

  /** The mapped registers: a history of accesses, and what the hardware answers to a read after it. */
  class RegisterMap {
    var log: seq<Access>
    const readout: (seq<Access>, nat) -> u32

    constructor (readout: (seq<Access>, nat) -> u32)
      ensures log == [] && this.readout == readout
    {
      log := [];
      this.readout := readout;
    }

    method Set(index: nat, value: u32)
      modifies this
      ensures log == old(log) + [Write(index, value)]
    {
      log := log + [Write(index, value)];
    }

    method Sleep(us: nat)
      modifies this
      ensures log == old(log) + [Wait(us)]
    {
      log := log + [Wait(us)];
    }

    method Get(index: nat) returns (value: u32)
      ensures value == readout(log, index)
    {
      value := readout(log, index);
    }
  }

  /** The channels get their delays, in order. */
  function Delays(delays: seq<u32>): seq<Access> {
    if delays == [] then []
    else Delays(delays[..|delays| - 1]) + [Write(DELAY_IN + |delays| - 1, delays[|delays| - 1])]
  }

  function SameDelay(n: u32, ch: nat): (r: seq<u32>)
    ensures |r| == ch && forall c :: 0 <= c < ch ==> r[c] == n
  {
    seq(ch, _ => n)
  }

  /** One tap on all channels: set it, reset the counters, let them run. */
  function TryTap(n: u32): seq<Access> {
    Delays(SameDelay(n, NUM_ADC)) +
    [Wait(1000), Write(CTRL, RESET_IN_TEST), Wait(1000), Write(CTRL, RUN_TEST), Wait(1000)]
  }

  function TryTaps(taps: seq<u32>): seq<Access> {
    if taps == [] then [] else TryTaps(taps[..|taps| - 1]) + TryTap(taps[|taps| - 1])
  }

  /** 0, 1, 2, ... */
  function AllTaps(): (r: seq<u32>)
    ensures |r| == TAPS && forall n :: 0 <= n < TAPS ==> r[n] == n
  {
    seq<u32>(TAPS, n requires 0 <= n < TAPS => n)
  }

  /** What a channel's error counter shows after tap n. */
  function Reading(readout: (seq<Access>, nat) -> u32, before: seq<Access>, ch: nat, n: nat): u32
    requires n < TAPS
  {
    readout(before + TryTaps(AllTaps()[..n + 1]), TEST_DATA + ch)
  }

  function Measured(readout: (seq<Access>, nat) -> u32, before: seq<Access>, ch: nat): (r: seq<u32>)
    ensures |r| == TAPS
  {
    seq<u32>(TAPS, n requires 0 <= n < TAPS => Reading(readout, before, ch, n))
  }

  method SetAll(regs: RegisterMap, n: u32)
    modifies regs
    ensures regs.log == old(regs.log) + Delays(SameDelay(n, NUM_ADC))
  {
    assert regs.log == regs.log + Delays(SameDelay(n, 0));
    for ch := 0 to NUM_ADC
      invariant regs.log == old(regs.log) + Delays(SameDelay(n, ch))
    {
      regs.Set(DELAY_IN + ch, n);
      assert SameDelay(n, ch + 1)[..ch] == SameDelay(n, ch);
    }
  }

  method RunTap(regs: RegisterMap, n: u32)
    modifies regs
    ensures regs.log == old(regs.log) + TryTap(n)
  {
    SetAll(regs, n);
    regs.Sleep(1000);
    regs.Set(CTRL, RESET_IN_TEST);
    regs.Sleep(1000);
    regs.Set(CTRL, RUN_TEST);
    regs.Sleep(1000);
  }

  /** All channels' counters after tap n go into column n. */
  method ReadCounts(regs: RegisterMap, errors: array2<u32>, n: nat, ghost before: seq<Access>)
    requires errors.Length0 == NUM_ADC && errors.Length1 == TAPS && n < TAPS
    requires regs.log == before + TryTaps(AllTaps()[..n + 1])
    modifies errors
    ensures forall c :: 0 <= c < NUM_ADC ==> errors[c, n] == Reading(regs.readout, before, c, n)
    ensures forall c, m :: 0 <= c < NUM_ADC && 0 <= m < TAPS && m != n ==> errors[c, m] == old(errors[c, m])
  {
    for ch := 0 to NUM_ADC
      invariant forall c :: 0 <= c < ch ==> errors[c, n] == Reading(regs.readout, before, c, n)
      invariant forall c, m :: 0 <= c < NUM_ADC && 0 <= m < TAPS && m != n ==> errors[c, m] == old(errors[c, m])
    {
      var count := regs.Get(TEST_DATA + ch);
      errors[ch, n] := count;
    }
  }

  /** The measuring loop of adc_init. */
  method MeasureAll(regs: RegisterMap) returns (errors: array2<u32>)
    modifies regs
    ensures fresh(errors) && errors.Length0 == NUM_ADC && errors.Length1 == TAPS
    ensures regs.log == old(regs.log) + TryTaps(AllTaps())
    ensures forall ch :: 0 <= ch < NUM_ADC ==> Row(errors, ch) == Measured(regs.readout, old(regs.log), ch)
  {
    errors := new u32[NUM_ADC, TAPS];
    ghost var before := regs.log;
    ghost var taps := AllTaps();
    assert before == before + TryTaps(taps[..0]);
    for n := 0 to TAPS
      invariant regs.log == before + TryTaps(taps[..n])
      invariant forall c, m :: 0 <= c < NUM_ADC && 0 <= m < n ==> errors[c, m] == Reading(regs.readout, before, c, m)
    {
      RunTap(regs, n);
      assert taps[..n + 1][..n] == taps[..n];
      assert before + TryTaps(taps[..n]) + TryTap(n) == before + TryTaps(taps[..n + 1]);
      ReadCounts(regs, errors, n, before);
    }
    assert taps[..TAPS] == taps;
  }

  /** The end of adc_init: reset the counters and leave test mode. */
  method LeaveTest(regs: RegisterMap)
    modifies regs
    ensures regs.log == old(regs.log) + LeavingTest()
  {
    regs.Sleep(1000);
    regs.Set(CTRL, RESET);
    regs.Sleep(1000);
    regs.Set(CTRL, RUN);
  }

  function LeavingTest(): seq<Access> {
    [Wait(1000), Write(CTRL, RESET), Wait(1000), Write(CTRL, RUN)]
  }

  /**
   * adc_init: every tap is tried on all channels and its error counts kept, then each
   * channel gets the best of its own taps, and test mode is left. Nothing else is written.
   */
  method AdcInit(regs: RegisterMap) returns (ghost delays: seq<u32>)
    modifies regs
    ensures |delays| == NUM_ADC
    ensures regs.log == old(regs.log) + TryTaps(AllTaps()) + Delays(delays) + LeavingTest()
    ensures forall ch :: 0 <= ch < NUM_ADC ==> Chosen(Measured(regs.readout, old(regs.log), ch), delays[ch])
    ensures forall ch :: 0 <= ch < NUM_ADC ==> LastWrite(regs.log, 24 + ch) == Some(delays[ch])
  {
    var errors := MeasureAll(regs);
    ghost var rows, before := Rows(errors), regs.log;
    delays := SetBest(regs, errors);
    LeaveTest(regs);
    forall ch | 0 <= ch < NUM_ADC
      ensures LastWrite(regs.log, 24 + ch) == Some(delays[ch])
    {
      DelaysStay(before, delays, regs.log, ch);
    }
    assert forall ch :: 0 <= ch < NUM_ADC ==> Chosen(rows[ch], delays[ch]);
  }

  /** The middle of the longest run, and hence a best tap. */
  ghost predicate Chosen(errors: seq<u32>, tap: u32) {
    MidOfLongest(errors, tap) && BestTap(errors, tap)
  }

  ghost predicate AllChosen(rows: seq<seq<u32>>, delays: seq<u32>) {
    |delays| <= |rows| && forall ch :: 0 <= ch < |delays| ==> Chosen(rows[ch], delays[ch])
  }

  lemma {:induction false} ChosenAppend(rows: seq<seq<u32>>, delays: seq<u32>, tap: u32)
    requires AllChosen(rows, delays) && |delays| < |rows| && Chosen(rows[|delays|], tap)
    ensures AllChosen(rows, delays + [tap])
  {
    forall ch | 0 <= ch <= |delays|
      ensures Chosen(rows[ch], (delays + [tap])[ch])
    {
      if ch < |delays| {
        assert Chosen(rows[ch], delays[ch]);
      }
    }
  }

  ghost function Rows(errors: array2<u32>): (r: seq<seq<u32>>)
    requires errors.Length0 == NUM_ADC
    reads errors
    ensures |r| == NUM_ADC && forall ch :: 0 <= ch < NUM_ADC ==> r[ch] == Row(errors, ch)
  {
    seq(NUM_ADC, ch requires 0 <= ch < NUM_ADC reads errors => Row(errors, ch))
  }

  method SetOne(regs: RegisterMap, errors: array2<u32>, ghost rows: seq<seq<u32>>, ghost delays: seq<u32>, ch: nat)
    returns (ghost delays': seq<u32>)
    requires ch < NUM_ADC == errors.Length0 && errors.Length1 == TAPS
    requires rows == Rows(errors) && |delays| == ch && AllChosen(rows, delays)
    modifies regs
    ensures |delays'| == ch + 1 && delays'[..ch] == delays && AllChosen(rows, delays')
    ensures regs.log == old(regs.log) + [Write(DELAY_IN + ch, delays'[ch])]
  {
    var tap := FindMidOfLongestRun(errors, ch);
    MidIsBest(Row(errors, ch), tap);
    ChosenAppend(rows, delays, tap);
    delays' := delays + [tap];
    regs.Set(DELAY_IN + ch, tap);
  }

  /** The last loop of adc_init. */
  method SetBest(regs: RegisterMap, errors: array2<u32>) returns (ghost delays: seq<u32>)
    requires errors.Length0 == NUM_ADC && errors.Length1 == TAPS
    modifies regs
    ensures |delays| == NUM_ADC && regs.log == old(regs.log) + Delays(delays)
    ensures AllChosen(Rows(errors), delays)
  {
    ghost var rows := Rows(errors);
    delays := [];
    assert regs.log == regs.log + Delays(delays);
    for ch := 0 to NUM_ADC
      invariant |delays| == ch && regs.log == old(regs.log) + Delays(delays)
      invariant rows == Rows(errors) && AllChosen(rows, delays)
    {
      delays := SetOne(regs, errors, rows, delays, ch);
    }
  }

  // ---------------------------------------------------------------- what the accesses achieve

  /** What a register was last set to. */
  function LastWrite(log: seq<Access>, index: nat): Option<u32> {
    if log == [] then None
    else
      var a := log[|log| - 1];
      if a.Write? && a.index == index then Some(a.value) else LastWrite(log[..|log| - 1], index)
  }

  lemma {:induction false} LastWriteConcat(a: seq<Access>, b: seq<Access>, all: seq<Access>, index: nat)
    requires all == a + b
    ensures LastWrite(all, index) == if LastWrite(b, index).Some? then LastWrite(b, index) else LastWrite(a, index)
  {
    if b == [] {
      assert all == a;
    } else {
      assert all[..|all| - 1] == a + b[..|b| - 1];
      LastWriteConcat(a, b[..|b| - 1], all[..|all| - 1], index);
    }
  }

  lemma {:induction false} LastOfDelays(delays: seq<u32>, ch: nat)
    ensures LastWrite(Delays(delays), 24 + ch) == if ch < |delays| then Some(delays[ch]) else None
  {
    if delays != [] {
      LastOfDelays(delays[..|delays| - 1], ch);
      assert Delays(delays)[..|delays| - 1] == Delays(delays[..|delays| - 1]) by {
        DelaysLength(delays[..|delays| - 1]);
      }
    }
  }

  lemma {:induction false} DelaysLength(delays: seq<u32>)
    ensures |Delays(delays)| == |delays|
  {
    if delays != [] {
      DelaysLength(delays[..|delays| - 1]);
    }
  }

  /** Accesses that leave the delay of a channel alone. */
  lemma {:induction false} LastBehind(
      before: seq<Access>, delays: seq<u32>, tail: seq<Access>, log: seq<Access>, ch: nat)
    requires log == before + (Delays(delays) + tail) && ch < |delays|
    requires LastWrite(tail, 24 + ch).None?
    ensures LastWrite(log, 24 + ch) == Some(delays[ch])
  {
    LastOfDelays(delays, ch);
    LastWriteConcat(Delays(delays), tail, Delays(delays) + tail, 24 + ch);
    LastWriteConcat(before, Delays(delays) + tail, log, 24 + ch);
  }

  function Tail(n: u32): (t: seq<Access>)
    ensures TryTap(n) == Delays(SameDelay(n, NUM_ADC)) + t
  {
    [Wait(1000), Write(CTRL, RESET_IN_TEST), Wait(1000), Write(CTRL, RUN_TEST), Wait(1000)]
  }

  lemma {:induction false} NoDelays(tail: seq<Access>, index: nat)
    requires forall j :: 0 <= j < |tail| ==> tail[j].Wait? || tail[j].index != index
    ensures LastWrite(tail, index).None?
  {
    if tail != [] {
      NoDelays(tail[..|tail| - 1], index);
    }
  }

  /**
   * When the counters of tap n are read (registers 0 to 15): all sixteen delays (registers 24
   * to 39) hold n, and since they were set the counters were reset and released in test mode,
   * with a millisecond before, between and after.
   */
  lemma {:induction false} TapIsTried(
      readout: (seq<Access>, nat) -> u32, before: seq<Access>, log: seq<Access>, n: nat, ch: nat)
    requires n < 512 && ch < 16 && log == before + TryTaps(AllTaps()[..n + 1])
    ensures Reading(readout, before, ch, n) == readout(log, ch)
    ensures LastWrite(log, 24 + ch) == Some(n)
    ensures |log| >= 5
    ensures log[|log| - 5..] ==
            [Wait(1000), Write(18, 0xD000_0000), Wait(1000), Write(18, 0xC000_0000), Wait(1000)]
  {
    var taps := AllTaps()[..n + 1];
    var first := before + TryTaps(taps[..n]);
    assert taps[n] == n;
    assert log == first + (Delays(SameDelay(n, NUM_ADC)) + Tail(n));
    NoDelays(Tail(n), 24 + ch);
    LastBehind(first, SameDelay(n, NUM_ADC), Tail(n), log, ch);
  }

  /** At the end of adc_init every delay holds what was chosen for it, and test mode is left, counters reset. */
  lemma {:induction false} DelaysStay(before: seq<Access>, delays: seq<u32>, log: seq<Access>, ch: nat)
    requires |delays| == 16 && ch < 16 && log == before + Delays(delays) + LeavingTest()
    ensures LastWrite(log, 24 + ch) == Some(delays[ch])
    ensures LastWrite(log, 18) == Some(0x8000_0000)
    ensures |log| >= 4 && log[|log| - 4..] == [Wait(1000), Write(18, 0x9000_0000), Wait(1000), Write(18, 0x8000_0000)]
  {
    assert log == before + (Delays(delays) + LeavingTest());
    NoDelays(LeavingTest(), 24 + ch);
    LastBehind(before, delays, LeavingTest(), log, ch);
  }

  // ---------------------------------------------------------------- what the midpoint is good for

  /** `m` taps on either side of `tap`, and `tap` itself, saw no errors. */
  ghost predicate Margin(errors: seq<u32>, tap: int, m: nat) {
    Clean(errors, tap - m, tap + m + 1)
  }

  /** A usable tap: in range, error-free if any tap is, and nowhere is there more margin. */
  ghost predicate BestTap(errors: seq<u32>, tap: int) {
    && 0 <= tap < TAPS == |errors|
    && ((exists k :: 0 <= k < TAPS && errors[k] == 0) ==> errors[tap] == 0)
    && forall t, m :: Margin(errors, t, m) ==> Margin(errors, tap, m)
  }

  /** The longest run is unique, so the midpoint is a function of the counts. */
  lemma {:induction false} LongestRunUnique(errors: seq<u32>, start: int, len: int, start': int, len': int)
    requires LongestRun(errors, start, len) && LongestRun(errors, start', len')
    ensures start == start' && len == len'
  {
  }

  lemma {:induction false} MidIsBest(errors: seq<u32>, mid: int)
    requires |errors| == TAPS
    requires MidOfLongest(errors, mid)
    ensures BestTap(errors, mid)
  {
    var start, len :| LongestRun(errors, start, len) && mid == start + len / 2;
    if k :| 0 <= k < TAPS && errors[k] == 0 {
      assert Clean(errors, k, k + 1);
    }
    assert len == 0 ==> start == 0 by {
      assert Clean(errors, 0, 0);
    }
    forall t: int, m: nat | Margin(errors, t, m)
      ensures Margin(errors, mid, m)
    {
      assert 2 * m + 1 <= len;
    }
  }

  // ---------------------------------------------------------------- error counters

  const TEST_PATTERN: u18 := 0x330FC

  /** What one ADC delivers at a clock: adc_valid, adc_ch_valid and the word. */
  datatype Observation = Observation(adcValid: bool, chValid: bool, data: u18)

  datatype Counters = Counters(badDco: u16, badData: u16)

  function NextCounters(c: Counters, reset: bool, testpat: bool, o: Observation): Counters {
    if reset then Counters(0, 0)
    else if o.adcValid then
      Counters(
        if !o.chValid && c.badDco < 65535 then c.badDco + 1 else c.badDco,
        if o.chValid && testpat && c.badData < 65535 && o.data != TEST_PATTERN then c.badData + 1 else c.badData)
    else c
  }

  class CounterRegs {
    const badDco: array<u16>
    const badData: array<u16>

    ghost predicate Valid() {
      badDco.Length == NUM_ADC && badData.Length == NUM_ADC && badDco != badData
    }

    constructor ()
      ensures Valid() && fresh(badDco) && fresh(badData)
    {
      badDco := new u16[NUM_ADC](_ => 0);
      badData := new u16[NUM_ADC](_ => 0);
    }

    method Step(reset: bool, testpat: bool, adcs: seq<Observation>)
      requires Valid() && |adcs| == NUM_ADC
      modifies badDco, badData
      ensures forall n :: 0 <= n < NUM_ADC ==>
                Counters(badDco[n], badData[n]) ==
                NextCounters(old(Counters(badDco[n], badData[n])), reset, testpat, adcs[n])
    {
      for n := 0 to NUM_ADC
        invariant forall m :: 0 <= m < n ==>
                    Counters(badDco[m], badData[m]) ==
                    NextCounters(old(Counters(badDco[m], badData[m])), reset, testpat, adcs[m])
        invariant forall m :: n <= m < NUM_ADC ==> badDco[m] == old(badDco[m]) && badData[m] == old(badData[m])
      {
        if reset {
          badDco[n], badData[n] := 0, 0;
        } else if adcs[n].adcValid {
          if !adcs[n].chValid && badDco[n] < 65535 {
            badDco[n] := badDco[n] + 1;
          }
          if adcs[n].chValid && testpat && badData[n] < 65535 && adcs[n].data != TEST_PATTERN {
            badData[n] := badData[n] + 1;
          }
        }
      }
    }
  }

  /** One clock, with its own reset and mode. */
  datatype CounterClock = CounterClock(reset: bool, testpat: bool, o: Observation)

  function FeedCounters(c: Counters, ks: seq<CounterClock>): Counters {
    if ks == [] then c
    else
      var k := ks[|ks| - 1];
      NextCounters(FeedCounters(c, ks[..|ks| - 1]), k.reset, k.testpat, k.o)
  }

  /** A word without its DCO pattern. */
  predicate Unaligned(k: CounterClock) { k.o.adcValid && !k.o.chValid }

  /** An aligned word that is not the test pattern, in test mode. */
  predicate Wrong(k: CounterClock) { k.o.adcValid && k.o.chValid && k.testpat && k.o.data != 0x330FC }

  /** Clocks up to and including the last reset; 0 without one. */
  function LastReset(ks: seq<CounterClock>): (n: nat)
    ensures n <= |ks|
  {
    if ks == [] then 0 else if ks[|ks| - 1].reset then |ks| else LastReset(ks[..|ks| - 1])
  }

  function CountDco(ks: seq<CounterClock>, from: nat): nat {
    if |ks| <= from then 0 else CountDco(ks[..|ks| - 1], from) + if Unaligned(ks[|ks| - 1]) then 1 else 0
  }

  function CountData(ks: seq<CounterClock>, from: nat): nat {
    if |ks| <= from then 0 else CountData(ks[..|ks| - 1], from) + if Wrong(ks[|ks| - 1]) then 1 else 0
  }

  function AtMost65535(x: nat): u16 { if x < 65535 then x else 65535 }

  /**
   * From any registers, with resets at any times: since the last reset each counter shows the
   * number of its bad words, up to 65535; with no reset yet, on top of what it held.
   */
  lemma {:induction false} CountersSaturate(c: Counters, ks: seq<CounterClock>)
    ensures var c', n := FeedCounters(c, ks), LastReset(ks);
            && c'.badDco == AtMost65535((if n == 0 then c.badDco else 0) + CountDco(ks, n))
            && c'.badData == AtMost65535((if n == 0 then c.badData else 0) + CountData(ks, n))
  {
    if ks != [] {
      CountersSaturate(c, ks[..|ks| - 1]);
    }
  }

  lemma {:induction false} NoneCounted(ks: seq<CounterClock>, from: nat)
    ensures CountDco(ks, from) == 0 <==> forall j :: from <= j < |ks| ==> !Unaligned(ks[j])
    ensures CountData(ks, from) == 0 <==> forall j :: from <= j < |ks| ==> !Wrong(ks[j])
  {
    if |ks| > from {
      NoneCounted(ks[..|ks| - 1], from);
    }
  }

  /**
   * Once there was a reset, whatever the registers held: no error counted means every word since
   * the last reset was aligned and, in test mode, was the test pattern.
   */
  lemma {:induction false} ZeroMeansClean(c: Counters, ks: seq<CounterClock>)
    requires LastReset(ks) > 0
    ensures FeedCounters(c, ks).badDco == 0 <==>
            forall j :: LastReset(ks) <= j < |ks| && ks[j].o.adcValid ==> ks[j].o.chValid
    ensures FeedCounters(c, ks).badData == 0 <==>
            forall j :: LastReset(ks) <= j < |ks| && ks[j].o.adcValid && ks[j].o.chValid && ks[j].testpat ==>
                          ks[j].o.data == 0x330FC
  {
    CountersSaturate(c, ks);
    NoneCounted(ks, LastReset(ks));
    assert forall j :: LastReset(ks) <= j < |ks| ==> (Unaligned(ks[j]) <==> ks[j].o.adcValid && !ks[j].o.chValid);
  }

  /** The last reset is one, and the last. */
  lemma {:induction false} ResetsEnd(ks: seq<CounterClock>)
    ensures LastReset(ks) > 0 ==> ks[LastReset(ks) - 1].reset
    ensures forall j :: LastReset(ks) <= j < |ks| ==> !ks[j].reset
  {
    if ks != [] {
      ResetsEnd(ks[..|ks| - 1]);
    }
  }
}
