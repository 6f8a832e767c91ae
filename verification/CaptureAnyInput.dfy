/**
 * The integrator under any inputs at all - samples in consecutive clocks, enable and start
 * from anywhere, resets at any time - against lists made from the inputs alone.
 */
module CaptureAnyInput {
  import opened Bits
  import opened Capture
  import opened Statistics
  import opened CaptureRun

  function FeedShared(s: Shared, ts: seq<Tick>): Shared {
    if ts == [] then s else NextShared(FeedShared(s, ts[..|ts| - 1]), ts[|ts| - 1])
  }

  function FeedChan(c: Chan, s: Shared, ts: seq<Tick>, n: nat): Chan
    requires n < NUM_CH
  {
    if ts == [] then c
    else NextChan(FeedChan(c, s, ts[..|ts| - 1], n), FeedShared(s, ts[..|ts| - 1]), ts[|ts| - 1], n)
  }

  /** Registers may hold anything before the first of two reset clocks. */
  predicate FromReset(ts: seq<Tick>) {
    |ts| >= 2 && ts[0].rst && ts[1].rst
  }

  // ---------------------------------------------------------------- the inputs so far

  /** A capture is on: start came with enable high, and enable has been high since. */
  predicate On(ts: seq<Tick>) {
    ts != [] && var t := ts[|ts| - 1]; !t.rst && t.ena && (t.start || On(ts[..|ts| - 1]))
  }

  /** The last clock has start high and the one before low. */
  predicate Rises(ts: seq<Tick>) {
    ts != [] && ts[|ts| - 1].start && (|ts| >= 2 ==> !ts[|ts| - 2].start)
  }

  /** In the last clock a capture was on, and start rose or enable was low. */
  predicate Captures(ts: seq<Tick>) {
    ts != [] && On(ts[..|ts| - 1]) && (Rises(ts) || !ts[|ts| - 1].ena)
  }

  /** In the last clock a capture is on or starting. */
  predicate Counting(ts: seq<Tick>) {
    ts != [] && ((ts[|ts| - 1].ena && ts[|ts| - 1].start) || On(ts[..|ts| - 1]))
  }

  /** Captures since the last reset. */
  function CapturesSince(ts: seq<Tick>): nat {
    if ts == [] || ts[|ts| - 1].rst then 0
    else CapturesSince(ts[..|ts| - 1]) + if Captures(ts) then 1 else 0
  }

  /** Timestamps of the samples counted since the last capture; one in the clock after it counts when enable is high. */
  function Stamps(ts: seq<Tick>): seq<u64> {
    if ts == [] || ts[|ts| - 1].rst then []
    else
      var before, t := ts[..|ts| - 1], ts[|ts| - 1];
      var stamp := if t.valid then [t.timestamp] else [];
      if Captures(before) then if t.ena then stamp else []
      else if Counting(ts) then Stamps(before) + stamp
      else Stamps(before)
  }

  function FirstNonzero(xs: seq<u64>): u64 {
    if xs == [] then 0
    else if FirstNonzero(xs[..|xs| - 1]) != 0 then FirstNonzero(xs[..|xs| - 1])
    else xs[|xs| - 1]
  }

  /** The value of channel n that the clock before brought, if any. */
  function Value(ts: seq<Tick>, n: nat): seq<int>
    requires n < NUM_CH
  {
    if |ts| < 2 then []
    else
      var t := ts[|ts| - 2];
      if !t.rst && t.valid && t.sample.valid[n] then [Signed18(t.sample.data[n])] else []
  }

  /** Values summed since the last capture. */
  function RegionVals(ts: seq<Tick>, n: nat): seq<int>
    requires n < NUM_CH
  {
    if ts == [] || ts[|ts| - 1].rst then []
    else
      var before := ts[..|ts| - 1];
      if Rises(ts) then RegionVals(before, n)
      else if Captures(before) then if ts[|ts| - 1].ena then Value(ts, n) else []
      else if Counting(ts) then RegionVals(before, n) + Value(ts, n)
      else RegionVals(before, n)
  }

  /** Values summed since start last rose with no capture on, those taken in right after a capture left out. */
  function WindowVals(ts: seq<Tick>, n: nat): seq<int>
    requires n < NUM_CH
  {
    if ts == [] || ts[|ts| - 1].rst then []
    else
      var before := ts[..|ts| - 1];
      if Rises(ts) then if On(before) then WindowVals(before, n) else []
      else if Counting(ts) && !Captures(before) then WindowVals(before, n) + Value(ts, n)
      else WindowVals(before, n)
  }

  /** Values compared since start last rose or the last capture. */
  function ComparedVals(ts: seq<Tick>, n: nat): seq<int>
    requires n < NUM_CH
  {
    if ts == [] || ts[|ts| - 1].rst || Rises(ts) || Captures(ts[..|ts| - 1]) then []
    else if Counting(ts) then ComparedVals(ts[..|ts| - 1], n) + Value(ts, n)
    else ComparedVals(ts[..|ts| - 1], n)
  }

  // ---------------------------------------------------------------- shared registers

  predicate SharedShows(s: Shared, ts: seq<Tick>) {
    && (ts != [] ==> s.startReg == ts[|ts| - 1].start)
    && (s.started <==> On(ts)) && (s.capReg <==> Captures(ts))
    && s.samples == |Stamps(ts)| % TWO64 && s.capTs == FirstNonzero(Stamps(ts))
    && s.pkts == CapturesSince(ts) % TWO64
  }

  lemma Wraps64(a: nat)
    ensures (a % TWO64 + 1) % TWO64 == (a + 1) % TWO64
  {
  }

  lemma {:induction false} FirstAppend(xs: seq<u64>, x: u64)
    ensures FirstNonzero(xs + [x]) == if FirstNonzero(xs) != 0 then FirstNonzero(xs) else x
  {
    assert (xs + [x])[..|xs|] == xs;
  }

  /** The counting registers in one clock. */
  lemma {:induction false} CountsClock(s: Shared, t: Tick, xs: seq<u64>, n: nat)
    requires s.samples == |xs| % TWO64 && s.capTs == FirstNonzero(xs) && s.pkts == n % TWO64
    ensures var s', x := NextShared(s, t), if t.valid then [t.timestamp] else [];
            var xs' := if t.rst then [] else if s.capReg then if t.ena then x else []
                       else if (t.ena && t.start) || s.started then xs + x else xs;
            s'.samples == |xs'| % TWO64 && s'.capTs == FirstNonzero(xs')
  {
    Wraps64(|xs|);
    FirstAppend(xs, t.timestamp);
    assert FirstNonzero([t.timestamp]) == t.timestamp;
    assert xs + [] == xs;
  }

  lemma SwitchesClock(s: Shared, t: Tick, n: nat)
    requires s.pkts == n % TWO64
    ensures var s' := NextShared(s, t);
            && s'.startReg == t.start
            && (s'.started <==> !t.rst && t.ena && (t.start || s.started))
            && (s'.capReg <==> s.started && ((t.start && !s.startReg) || !t.ena))
            && s'.pkts == (if t.rst then 0
                           else if s.started && ((t.start && !s.startReg) || !t.ena) then n + 1 else n) % TWO64
  {
    Wraps64(n);
  }

  lemma {:induction false} SharedClock(s: Shared, before: seq<Tick>, t: Tick, ts: seq<Tick>)
    requires before != [] && SharedShows(s, before) && ts == before + [t]
    ensures SharedShows(NextShared(s, t), ts)
  {
    assert ts[..|ts| - 1] == before && ts[|ts| - 2] == before[|before| - 1];
    CountsClock(s, t, Stamps(before), CapturesSince(before));
    SwitchesClock(s, t, CapturesSince(before));
  }

  /** The shared registers under any inputs: what was counted, and when, is what the inputs say. */
  lemma {:induction false} SharedFromInputs(s: Shared, ts: seq<Tick>)
    requires FromReset(ts)
    ensures SharedShows(FeedShared(s, ts), ts)
  {
    var before := ts[..|ts| - 1];
    if |ts| == 2 {
      assert before[..0] == [];
      assert FeedShared(s, before) == NextShared(s, ts[0]);
    } else {
      SharedFromInputs(s, before);
      SharedClock(FeedShared(s, before), before, ts[|ts| - 1], ts);
    }
  }

  // ---------------------------------------------------------------- a channel

  predicate ChanShows(c: Chan, ts: seq<Tick>, n: nat)
    requires n < NUM_CH
  {
    && Region(c, RegionVals(ts, n)) && Whole(c, WindowVals(ts, n)) && Extremal(c, ComparedVals(ts, n))
  }

  /** What a clock adds to, clears or starts afresh. */
  datatype Effect = Same | Clear | Begin | Add

  function Applied(e: Effect, vs: seq<int>, v: seq<int>): seq<int> {
    match e
    case Same => vs
    case Clear => []
    case Begin => v
    case Add => vs + v
  }

  /** The effects of a clock on the three lists, from the wires. */
  function RegionEffect(s: Shared, t: Tick): Effect {
    if t.rst then Clear
    else if t.start && !s.startReg then Same
    else if s.capReg then if t.ena then Begin else Clear
    else if (t.ena && t.start) || s.started then Add else Same
  }

  function WindowEffect(s: Shared, t: Tick): Effect {
    if t.rst then Clear
    else if t.start && !s.startReg then if s.started then Same else Clear
    else if !s.capReg && ((t.ena && t.start) || s.started) then Add else Same
  }

  function ComparedEffect(s: Shared, t: Tick): Effect {
    if t.rst || (t.start && !s.startReg) || s.capReg then Clear
    else if (t.ena && t.start) || s.started then Add else Same
  }

  /** The result registers hold this value, or none. */
  predicate Offers(c: Chan, v: seq<int>) {
    if c.resValid then exists d: u18 :: c.resSum == Extend20(d) && c.resSq == Square(d) && v == [Signed18(d)]
    else v == []
  }

  lemma {:induction false} RegionClock(c: Chan, s: Shared, t: Tick, n: nat, vs: seq<int>, v: seq<int>)
    requires n < NUM_CH && Region(c, vs) && Offers(c, v)
    ensures Region(NextChan(c, s, t, n), Applied(RegionEffect(s, t), vs, v))
  {
    if c.resValid {
      var d: u18 :| c.resSum == Extend20(d) && c.resSq == Square(d) && v == [Signed18(d)];
      HoldsAppend(c.count, c.sum, c.sq, vs, d);
      HoldsOne(d);
    } else {
      assert vs + [] == vs;
    }
  }

  lemma {:induction false} HoldsOne(d: u18)
    ensures Holds(1, Extend64(Extend20(d)), Square(d), [Signed18(d)])
  {
    HoldsAppend(0, 0, 0, [], d);
    assert [] + [Signed18(d)] == [Signed18(d)];
    SignExtend(d);
  }

  lemma {:induction false} WindowClock(c: Chan, s: Shared, t: Tick, n: nat, ws: seq<int>, v: seq<int>)
    requires n < NUM_CH && Whole(c, ws) && Offers(c, v)
    ensures Whole(NextChan(c, s, t, n), Applied(WindowEffect(s, t), ws, v))
  {
    if c.resValid {
      var d: u18 :| c.resSum == Extend20(d) && c.resSq == Square(d) && v == [Signed18(d)];
      HoldsAppend(c.countWin, c.sumWin, c.sqWin, ws, d);
    } else {
      assert ws + [] == ws;
    }
  }

  lemma {:induction false} ComparedClock(c: Chan, s: Shared, t: Tick, n: nat, es: seq<int>, v: seq<int>)
    requires n < NUM_CH && Extremal(c, es) && Offers(c, v)
    ensures Extremal(NextChan(c, s, t, n), Applied(ComparedEffect(s, t), es, v))
  {
    if c.resValid {
      var d: u18 :| c.resSum == Extend20(d) && c.resSq == Square(d) && v == [Signed18(d)];
      Append(es, Signed18(d));
      SignExtend(d);
    } else {
      assert es + [] == es;
    }
  }

  lemma {:induction false} ListsClock(s: Shared, before: seq<Tick>, t: Tick, ts: seq<Tick>, n: nat)
    requires before != [] && SharedShows(s, before) && ts == before + [t] && n < NUM_CH
    ensures RegionVals(ts, n) == Applied(RegionEffect(s, t), RegionVals(before, n), Value(ts, n))
    ensures WindowVals(ts, n) == Applied(WindowEffect(s, t), WindowVals(before, n), Value(ts, n))
    ensures ComparedVals(ts, n) == Applied(ComparedEffect(s, t), ComparedVals(before, n), Value(ts, n))
  {
    assert ts[..|ts| - 1] == before && ts[|ts| - 2] == before[|before| - 1];
  }

  lemma ResultClock(c: Chan, s: Shared, t: Tick, n: nat)
    requires n < NUM_CH
    ensures Offers(NextChan(c, s, t, n),
                   if !t.rst && t.valid && t.sample.valid[n] then [Signed18(t.sample.data[n])] else [])
  {
  }

  lemma {:induction false} ValueOffered(c: Chan, s: Shared, ts: seq<Tick>, before: seq<Tick>, n: nat)
    requires before != [] && n < NUM_CH
    requires ts != [] && before == ts[..|ts| - 1]
    ensures Offers(FeedChan(c, s, before, n), Value(ts, n))
  {
    var last := |before| - 1;
    ResultClock(FeedChan(c, s, before[..last], n), FeedShared(s, before[..last]), before[last], n);
  }

  /**
   * A channel under any inputs: region and window accumulators are the sums modulo 2^64, and
   * ch_min / ch_max the extremes, of the values that the inputs say.
   */
  lemma {:induction false} ChannelFromInputs(c: Chan, s: Shared, ts: seq<Tick>, n: nat)
    requires FromReset(ts) && n < NUM_CH
    ensures ChanShows(FeedChan(c, s, ts, n), ts, n)
  {
    var before, t := ts[..|ts| - 1], ts[|ts| - 1];
    ValueOffered(c, s, ts, before, n);
    if |ts| > 2 {
      ChannelFromInputs(c, s, before, n);
      SharedFromInputs(s, before);
      var c1, s1 := FeedChan(c, s, before, n), FeedShared(s, before);
      ListsClock(s1, before, t, ts, n);
      RegionClock(c1, s1, t, n, RegionVals(before, n), Value(ts, n));
      WindowClock(c1, s1, t, n, WindowVals(before, n), Value(ts, n));
      ComparedClock(c1, s1, t, n, ComparedVals(before, n), Value(ts, n));
    }
  }

  // ---------------------------------------------------------------- ch_misc

  /** The last clock summed a value of channel n and compared it. */
  predicate Compares(ts: seq<Tick>, n: nat)
    requires n < NUM_CH
  {
    && ts != [] && !ts[|ts| - 1].rst && !Rises(ts) && !Captures(ts[..|ts| - 1])
    && Counting(ts) && Value(ts, n) != []
  }

  /** The inputs up to the latest such clock; resets do not matter. */
  function UpToLast(ts: seq<Tick>, n: nat): seq<Tick>
    requires n < NUM_CH
  {
    if ts == [] || Compares(ts, n) then ts else UpToLast(ts[..|ts| - 1], n)
  }

  /** The trigger of the last clock, and the extremes before it. */
  predicate MiscShows(c: Chan, ts: seq<Tick>, n: nat)
    requires n < NUM_CH
  {
    ts != [] ==>
      && c.misc / 0x100_0000_0000 == ts[|ts| - 1].trigger
      && Signed20(c.misc / 0x10_0000 % 0x10_0000) == Low(ComparedVals(ts[..|ts| - 1], n))
      && Signed20(c.misc % 0x10_0000) == High(ComparedVals(ts[..|ts| - 1], n))
  }

  lemma MiscClock(c: Chan, s: Shared, t: Tick, n: nat)
    requires n < NUM_CH
    ensures var c' := NextChan(c, s, t, n);
            if ComparedEffect(s, t) == Add && c.resValid then
              && c'.misc / 0x100_0000_0000 == t.trigger
              && c'.misc / 0x10_0000 % 0x10_0000 == c.min && c'.misc % 0x10_0000 == c.max
            else c'.misc == c.misc
  {
    MiscFields(t.trigger, c.min, c.max);
  }

  lemma {:induction false} ComparesClock(s: Shared, before: seq<Tick>, t: Tick, ts: seq<Tick>, n: nat)
    requires before != [] && SharedShows(s, before) && ts == before + [t] && n < NUM_CH
    ensures Compares(ts, n) <==> ComparedEffect(s, t) == Add && Value(ts, n) != []
    ensures UpToLast(ts, n) == if Compares(ts, n) then ts else UpToLast(before, n)
  {
    assert ts[..|ts| - 1] == before && ts[|ts| - 2] == before[|before| - 1];
  }

  lemma {:induction false} NoneYet(ts: seq<Tick>, n: nat)
    requires FromReset(ts) && |ts| == 2 && n < NUM_CH
    ensures UpToLast(ts, n) == []
  {
    var before := ts[..1];
    assert !Compares(ts, n) && !Compares(before, n) && before[..0] == [];
    assert UpToLast(before, n) == [];
  }

  /** ch_misc under any inputs: trigger bits and extremes as of the latest value compared. */
  lemma {:induction false} MiscFromInputs(c: Chan, s: Shared, ts: seq<Tick>, n: nat)
    requires FromReset(ts) && n < NUM_CH
    ensures MiscShows(FeedChan(c, s, ts, n), UpToLast(ts, n), n)
  {
    var before, t := ts[..|ts| - 1], ts[|ts| - 1];
    ValueOffered(c, s, ts, before, n);
    if |ts| == 2 {
      NoneYet(ts, n);
    } else {
      MiscFromInputs(c, s, before, n);
      SharedFromInputs(s, before);
      ChannelFromInputs(c, s, before, n);
      MiscClock(FeedChan(c, s, before, n), FeedShared(s, before), t, n);
      ComparesClock(FeedShared(s, before), before, t, ts, n);
    }
  }
}
