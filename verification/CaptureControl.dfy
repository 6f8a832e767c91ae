/**
 * Trigger, delay and region counters (hdl/src/capture_control.v), against a
 * reference that only knows samples: wait, skip the delay, fill R regions.
 */
module CaptureControl {
  import opened Bits

  const CYCLE_LENGTH_SAMPLES: u16 := 0x1DC4

  datatype Config = Config(enaDelay: u16, startDelay: u16, regions: u4, size: u16, testMode: bool)

  datatype Control = Control(cycleCnt: u16, regionCnt: u16, sampleCnt: u16, tmpCnt: u16)

  predicate EndCycle(s: Control, g: Config) { g.testMode && s.tmpCnt == CYCLE_LENGTH_SAMPLES }

  predicate Fires(s: Control, g: Config, trig: bool) { trig || (g.testMode && s.tmpCnt == 0) }

  /** The delay sum is 16 bits wide, like its operands. */
  predicate CycleActive(s: Control, g: Config) {
    s.cycleCnt != 0 && s.cycleCnt > Add16(g.enaDelay, g.startDelay)
  }

  predicate RegionEnd(s: Control, g: Config, valid: bool) { valid && s.sampleCnt == g.size }

  predicate AllEnd(s: Control, g: Config, valid: bool) {
    valid && s.regionCnt == Sub16(g.regions, 1) && RegionEnd(s, g, valid)
  }

  predicate CapEna(s: Control, g: Config) { s.cycleCnt >= g.enaDelay }

  predicate CapStart(s: Control, g: Config, valid: bool) {
    s.sampleCnt == 0 && CycleActive(s, g) && !AllEnd(s, g, valid)
  }

  function CapRegion(s: Control): u4 { s.regionCnt % 16 }

  function NextControl(s: Control, g: Config, rst: bool, trig: bool, valid: bool): Control {
    var tmp := if !g.testMode || EndCycle(s, g) then 0 else if valid then Add16(s.tmpCnt, 1) else s.tmpCnt;
    if rst then Control(0, 0, 0, tmp)
    else if CycleActive(s, g) then
      Control(
        if AllEnd(s, g, valid) then 0 else if valid then Add16(s.cycleCnt, 1) else s.cycleCnt,
        if RegionEnd(s, g, valid) then Add16(s.regionCnt, 1) else s.regionCnt,
        if RegionEnd(s, g, valid) then 0 else if valid then Add16(s.sampleCnt, 1) else s.sampleCnt,
        tmp)
    else if Fires(s, g, trig) then Control(1, 0, 0, tmp)
    else
      s.(cycleCnt := if s.cycleCnt != 0 && valid then Add16(s.cycleCnt, 1) else s.cycleCnt, tmpCnt := tmp)
  }

  class ControlRegs {
    var cycleCnt: u16
    var regionCnt: u16
    var sampleCnt: u16
    var tmpCnt: u16

    constructor ()
    {
    }

    function View(): Control
      reads this
    {
      Control(cycleCnt, regionCnt, sampleCnt, tmpCnt)
    }

    method Step(g: Config, rst: bool, trig: bool, valid: bool)
      modifies this
      ensures View() == NextControl(old(View()), g, rst, trig, valid)
    {
      var active, regionEnd := CycleActive(View(), g), RegionEnd(View(), g, valid);
      var allEnd, fires := AllEnd(View(), g, valid), Fires(View(), g, trig);
      if !g.testMode || EndCycle(View(), g) {
        tmpCnt := 0;
      } else if valid {
        tmpCnt := Add16(tmpCnt, 1);
      }
      if rst {
        cycleCnt, regionCnt, sampleCnt := 0, 0, 0;
      } else {
        if cycleCnt != 0 && valid {
          cycleCnt := Add16(cycleCnt, 1);
        }
        if active {
          if allEnd {
            cycleCnt := 0;
          }
          if regionEnd {
            sampleCnt, regionCnt := 0, Add16(regionCnt, 1);
          } else if valid {
            sampleCnt := Add16(sampleCnt, 1);
          }
        } else if fires {
          cycleCnt, regionCnt, sampleCnt := 1, 0, 0;
        }
      }
    }
  }

  // ---------------------------------------------------------------- reference

  /**
   * A cycle seen in samples: delay samples used, or the closed regions and the
   * samples of the region being filled.
   */
  datatype Cycle<S> = Waiting | Delaying(used: nat) | Running(closed: seq<seq<S>>, region: seq<S>)

  function Delay(g: Config): nat { g.enaDelay + g.startDelay }

  /** What software must program: something to delay, something to measure, and a cycle the counters can hold. */
  predicate Programmed(g: Config) {
    g.enaDelay >= 1 && g.regions >= 1 && g.size >= 1 && Delay(g) + g.regions * (g.size + 1) < TWO16
  }

  /** A trigger counts unless a region is being measured; it restarts the delay. */
  function NextCycle<S>(y: Cycle<S>, g: Config, fires: bool, sample: Option<S>): Cycle<S> {
    match y
    case Waiting => if fires then Delaying(0) else Waiting
    case Delaying(used) =>
      if fires then Delaying(0)
      else if sample.None? then y
      else if used + 1 >= Delay(g) then Running([], [])
      else Delaying(used + 1)
    case Running(closed, region) =>
      if sample.None? then y
      else
        var region' := region + [sample.value];
        if |region'| <= g.size then Running(closed, region')
        else if |closed| + 1 < g.regions then Running(closed + [region'], [])
        else Waiting
  }

  /** Samples in `k` regions of `n`. */
  function Total(k: nat, n: nat): nat {
    if k == 0 then 0 else Total(k - 1, n) + n
  }

  lemma {:induction false} TotalIsProduct(k: nat, n: nat)
    ensures Total(k, n) == k * n
  {
    if k > 0 {
      TotalIsProduct(k - 1, n);
    }
  }

  lemma {:induction false} TotalGrows(j: nat, k: nat, n: nat)
    requires j <= k
    ensures Total(j, n) <= Total(k, n)
  {
    if j < k {
      TotalGrows(j, k - 1, n);
    }
  }

  /** The counters hold exactly the reference's position. */
  ghost predicate Tracks<S>(s: Control, y: Cycle<S>, g: Config) {
    match y
    case Waiting => s.cycleCnt == 0 && s.sampleCnt == 0
    case Delaying(used) => s.cycleCnt == used + 1 && used < Delay(g) && s.sampleCnt == 0 && s.regionCnt == 0
    case Running(closed, region) =>
      && s.cycleCnt == Delay(g) + 1 + Total(|closed|, g.size + 1) + |region|
      && s.regionCnt == |closed| < g.regions
      && s.sampleCnt == |region| <= g.size
      && forall k :: 0 <= k < |closed| ==> |closed[k]| == g.size + 1
  }

  lemma RoomInCycle(closed: nat, region: nat, g: Config)
    requires Programmed(g) && closed < g.regions && region <= g.size
    ensures Delay(g) + 1 + Total(closed, g.size + 1) + region < TWO16
  {
    TotalGrows(closed + 1, g.regions, g.size + 1);
    TotalIsProduct(g.regions, g.size + 1);
  }

  lemma DelayFits(g: Config)
    requires Programmed(g)
    ensures Add16(g.enaDelay, g.startDelay) == Delay(g) && Sub16(g.regions, 1) == g.regions - 1
  {
    RoomInCycle(0, 0, g);
  }

  /** What the reference's phase means for the wires. */
  lemma {:induction false} Wires<S>(s: Control, y: Cycle<S>, g: Config, valid: bool)
    requires Programmed(g) && Tracks(s, y, g)
    ensures CycleActive(s, g) <==> y.Running?
    ensures CapStart(s, g, valid) <==> y.Running? && y.region == []
    ensures y.Running? ==> CapEna(s, g)
    ensures y.Waiting? ==> !CapEna(s, g)
    ensures y.Running? ==> (AllEnd(s, g, valid) <==> valid && |y.region| == g.size && |y.closed| + 1 == g.regions)
  {
    DelayFits(g);
  }

  /**
   * The counters refine the reference: after an accepted trigger exactly
   * ena_delay + start_delay samples are skipped and R * (size + 1) measured,
   * a trigger during the delay restarts it, one during the measurement does nothing.
   */
  lemma {:induction false} ControlRefines<S>(s: Control, y: Cycle<S>, g: Config, trig: bool, sample: Option<S>)
    requires Programmed(g) && Tracks(s, y, g)
    ensures Tracks(NextControl(s, g, false, trig, sample.Some?), NextCycle(y, g, Fires(s, g, trig), sample), g)
  {
    DelayFits(g);
    Wires(s, y, g, sample.Some?);
    if y.Running? && sample.Some? {
      if |y.region| < g.size {
        CycleFits(s, y, g);
        FillingRefines(s, y, g, trig, sample.value);
      } else if |y.closed| + 1 < g.regions {
        CycleFits(s, y, g);
        ClosingRefines(s, y, g, trig, sample.value);
      }
    } else if !y.Running? {
      RoomInCycle(0, 0, g);
    }
  }

  lemma {:induction false} CycleFits<S>(s: Control, y: Cycle<S>, g: Config)
    requires Programmed(g) && Tracks(s, y, g) && y.Running?
    requires |y.region| < g.size || |y.closed| + 1 < g.regions
    ensures s.cycleCnt + 1 < TWO16
  {
    if |y.region| < g.size {
      RoomInCycle(|y.closed|, |y.region| + 1, g);
    } else {
      RoomInCycle(|y.closed| + 1, 0, g);
    }
  }

  lemma {:induction false} FillingRefines<S>(s: Control, y: Cycle<S>, g: Config, trig: bool, sample: S)
    requires Tracks(s, y, g) && y.Running? && CycleActive(s, g)
    requires s.cycleCnt + 1 < TWO16 && |y.region| < g.size
    ensures Tracks(NextControl(s, g, false, trig, true), NextCycle(y, g, Fires(s, g, trig), Some(sample)), g)
  {
  }

  lemma {:induction false} ClosingRefines<S>(s: Control, y: Cycle<S>, g: Config, trig: bool, sample: S)
    requires Tracks(s, y, g) && y.Running? && CycleActive(s, g) && !AllEnd(s, g, true)
    requires s.cycleCnt + 1 < TWO16 && |y.region| == g.size && |y.closed| + 1 < g.regions
    ensures Tracks(NextControl(s, g, false, trig, true), NextCycle(y, g, Fires(s, g, trig), Some(sample)), g)
  {
    var s', y' := NextControl(s, g, false, trig, true), NextCycle(y, g, Fires(s, g, trig), Some(sample));
    assert y' == Running(y.closed + [y.region + [sample]], []);
    assert s'.sampleCnt == 0 && s'.regionCnt == s.regionCnt + 1 && s'.cycleCnt == s.cycleCnt + 1;
    assert Total(|y'.closed|, g.size + 1) == Total(|y.closed|, g.size + 1) + g.size + 1;
  }
}
