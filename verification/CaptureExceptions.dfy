/**
 * Where a packet's label, sample count and timestamp are not what a reader expects, as
 * conditions on the inputs, and a run on which it happens.
 */
module CaptureExceptions {
  import opened Bits
  import opened CaptureControl
  import opened Capture
  import opened Statistics
  import opened CaptureRun
  import opened CaptureTheorems

  // ---------------------------------------------------------------- the last label of a cycle

  lemma {:induction false} CycleOver(x: System, g: Config, k: RunTick)
    requires Programmed(g) && SystemInv(x, g) && x.ctl.cycleCnt == 0 && CapturedWire(x, g, k)
    ensures x.b.stage == Closing(true) && x.y.Waiting? && |x.b.done| == g.regions
  {
    CaptureWire(x, g, k.valid);
  }

  /**
   * In the clock after a cycle's last sample `captured` is high and the counter is 0. The
   * packet one clock later is labelled R, unless a trigger comes in that very clock: then 0.
   */
  lemma {:induction false} LastLabel(x: System, g: Config, k: RunTick)
    requires Programmed(g) && ReachableSystem(x, g) && (x.b.pend.Some? ==> !k.valid)
    requires x.ctl.cycleCnt == 0 && CapturedWire(x, g, k)
    ensures var x' := SystemNext(x, g, k);
            x'.sh.capReg && CapRegion(x'.ctl) == if Fires(x.ctl, g, k.trig) then 0 else g.regions
  {
    ReachableInv(x, g);
    LastLabelAt(x, g, k);
  }

  lemma {:induction false} LastLabelAt(x: System, g: Config, k: RunTick)
    requires Programmed(g) && SystemInv(x, g) && (x.b.pend.Some? ==> !k.valid)
    requires x.ctl.cycleCnt == 0 && CapturedWire(x, g, k)
    ensures var x' := SystemNext(x, g, k);
            x'.sh.capReg && CapRegion(x'.ctl) == if Fires(x.ctl, g, k.trig) then 0 else g.regions
  {
    CycleOver(x, g, k);
    SystemStep(x, g, k);
    PacketLabel(SystemNext(x, g, k), g);
  }

  // ---------------------------------------------------------------- samples_captured

  /** Up to a cycle's first packet. */
  ghost predicate BeforeFirst(x: System, g: Config, extra: nat) {
    && SystemInv(x, g) && x.b.extra == extra
    && match x.b.stage
       case Filling => x.b.done == []
       case Closing(_) => |x.b.done| == 1
       case Packet(_) => |x.b.done| == 1
       case _ => true
  }

  lemma {:induction false} BeforeFirstStep(x: System, g: Config, k: RunTick, extra: nat)
    requires Programmed(g) && BeforeFirst(x, g, extra) && !x.sh.capReg && (x.b.pend.Some? ==> !k.valid)
    ensures BeforeFirst(SystemNext(x, g, k), g, extra)
  {
    SystemStep(x, g, k);
    Switches(x, g, k);
  }

  /** No packet is taken during the clocks after the first `from`, before the last. */
  predicate NoPacket(x: System, g: Config, ks: seq<RunTick>, from: nat) {
    |ks| > from ==>
      NoPacket(x, g, ks[..|ks| - 1], from) && !FeedSystem(x, g, ks[..|ks| - 1]).sh.capReg
  }

  /** `ks` may follow x: no sample in a clock right after another. */
  predicate Follows(x: System, ks: seq<RunTick>) {
    Spaced(ks) && (x.b.pend.Some? && ks != [] ==> !ks[0].valid)
  }

  lemma {:induction false} FollowFeed(x: System, g: Config, ks: seq<RunTick>)
    requires Programmed(g) && SystemInv(x, g) && Follows(x, ks)
    ensures SystemInv(FeedSystem(x, g, ks), g)
    ensures ks != [] ==> FeedSystem(x, g, ks).b.pend == Given(ks[|ks| - 1])
  {
    if ks != [] {
      FollowFeed(x, g, ks[..|ks| - 1]);
      SystemStep(FeedSystem(x, g, ks[..|ks| - 1]), g, ks[|ks| - 1]);
    }
  }

  lemma {:induction false} BeforeFirstFeed(x: System, g: Config, ks: seq<RunTick>, from: nat, extra: nat)
    requires Programmed(g) && SystemInv(x, g) && Follows(x, ks) && NoPacket(x, g, ks, from)
    requires |ks| >= from && BeforeFirst(FeedSystem(x, g, ks[..from]), g, extra)
    ensures BeforeFirst(FeedSystem(x, g, ks), g, extra)
  {
    if |ks| == from {
      assert ks[..from] == ks;
    } else {
      var before := ks[..|ks| - 1];
      assert before[..from] == ks[..from];
      BeforeFirstFeed(x, g, before, from, extra);
      FollowFeed(x, g, before);
      BeforeFirstStep(FeedSystem(x, g, before), g, ks[|ks| - 1], extra);
    }
  }

  lemma {:induction false} FirstPacketSamples(x: System, g: Config, extra: nat)
    requires BeforeFirst(x, g, extra) && x.sh.capReg
    ensures x.sh.samples == g.size + 1 + extra
  {
  }

  /** The clock of a cycle's last packet, and the clock after it. */
  lemma {:induction false} AfterLastPacket(x: System, g: Config, k: RunTick, k1: RunTick)
    requires Programmed(g) && SystemInv(x, g) && (x.b.pend.Some? ==> !k.valid) && !(k.valid && k1.valid)
    requires x.ctl.cycleCnt == 0 && CapturedWire(x, g, k)
    ensures BeforeFirst(SystemNext(SystemNext(x, g, k), g, k1), g,
                        if g.enaDelay == 1 && Fires(x.ctl, g, k.trig) && k1.valid then 1 else 0)
  {
    CycleOver(x, g, k);
    SystemStep(x, g, k);
    var x1 := SystemNext(x, g, k);
    assert x1.b.stage == Packet(true) && (x1.y == if Fires(x.ctl, g, k.trig) then Delaying(0) else Waiting);
    SystemStep(x1, g, k1);
    Switches(x1, g, k1);
  }

  /**
   * From the clock after a cycle's last sample to the next cycle's first packet, whatever
   * triggers and samples come: that packet's samples_captured is size + 1, and size + 2 if
   * and only if ena_delay is 1, a trigger came in that first clock and a sample in the next.
   */
  lemma {:induction false} SamplesCaptured(x: System, g: Config, ks: seq<RunTick>)
    requires Programmed(g) && ReachableSystem(x, g) && |ks| >= 2 && Follows(x, ks)
    requires x.ctl.cycleCnt == 0 && CapturedWire(x, g, ks[0])
    requires NoPacket(x, g, ks, 2) && FeedSystem(x, g, ks).sh.capReg
    ensures FeedSystem(x, g, ks).sh.samples ==
            g.size + 1 + if g.enaDelay == 1 && Fires(x.ctl, g, ks[0].trig) && ks[1].valid then 1 else 0
  {
    ReachableInv(x, g);
    AfterLastPacket(x, g, ks[0], ks[1]);
    TwoClocks(x, g, ks);
    var extra := if g.enaDelay == 1 && Fires(x.ctl, g, ks[0].trig) && ks[1].valid then 1 else 0;
    BeforeFirstFeed(x, g, ks, 2, extra);
    FirstPacketSamples(FeedSystem(x, g, ks), g, extra);
  }

  lemma {:induction false} TwoClocks(x: System, g: Config, ks: seq<RunTick>)
    requires |ks| >= 2
    ensures FeedSystem(x, g, ks[..2]) == SystemNext(SystemNext(x, g, ks[0]), g, ks[1])
  {
    assert ks[..2][..1] == ks[..1] && ks[..1][..0] == [];
    assert FeedSystem(x, g, ks[..1]) == SystemNext(x, g, ks[0]);
  }

  /** The first packet after power-up has size + 1. */
  lemma {:induction false} SamplesAfterPowerUp(
      ctl: Control, sh: Shared, chans: Chans, g: Config, k1: RunTick, k2: RunTick, ks: seq<RunTick>)
    requires Programmed(g) && Spaced(ks)
    requires var x0 := PowerUp(ctl, sh, chans, g, k1, k2);
             NoPacket(x0, g, ks, 0) && FeedSystem(x0, g, ks).sh.capReg
    ensures FeedSystem(PowerUp(ctl, sh, chans, g, k1, k2), g, ks).sh.samples == g.size + 1
  {
    var x0 := PowerUp(ctl, sh, chans, g, k1, k2);
    PowerUpInv(ctl, sh, chans, g, k1, k2);
    assert ks[..0] == [];
    BeforeFirstFeed(x0, g, ks, 0, 0);
    FirstPacketSamples(FeedSystem(x0, g, ks), g, 0);
  }

  /** Every later packet of a cycle has size + 1. */
  lemma {:induction false} SamplesOfLaterPackets(x: System, g: Config)
    requires Programmed(g) && ReachableSystem(x, g) && x.sh.capReg && |x.b.done| != 1
    ensures x.sh.samples == g.size + 1
  {
    ReachableInv(x, g);
  }

  // ---------------------------------------------------------------- cap_ts

  /** The timestamp of the latest sample that came with cap_start high: the first of its region. */
  function FirstStamp(x: System, g: Config, ks: seq<RunTick>): u64 {
    if ks == [] then 0
    else
      var y, k := FeedSystem(x, g, ks[..|ks| - 1]), ks[|ks| - 1];
      if k.valid && CapStart(y.ctl, g, true) then k.timestamp else FirstStamp(x, g, ks[..|ks| - 1])
  }

  /** The region under way, or just closed, is the first of a cycle that counted one sample too many. */
  predicate Surplus(b: Books) {
    b.extra == 1 && match b.stage
                    case Filling => b.done == []
                    case Closing(_) => |b.done| == 1
                    case Packet(_) => |b.done| == 1
                    case _ => true
  }

  ghost predicate StampHeld(x: System, stamp: u64) {
    Surplus(x.b) ||
    match x.b.stage
    case Filling =>
      x.y.Running? && x.sh.capTs == (if x.y.region == [] then 0 else stamp) && (x.y.region != [] ==> stamp != 0)
    case Closing(_) => x.sh.capTs == stamp != 0
    case Packet(_) => x.sh.capTs == stamp != 0
    case _ => x.sh.capTs == 0
  }

  lemma {:induction false} StampStep(x: System, g: Config, k: RunTick, stamp: u64)
    requires Programmed(g) && SystemInv(x, g) && StampHeld(x, stamp)
    requires (x.b.pend.Some? ==> !k.valid) && k.timestamp != 0
    ensures StampHeld(SystemNext(x, g, k), if k.valid && CapStart(x.ctl, g, true) then k.timestamp else stamp)
  {
    Switches(x, g, k);
    Wires(x.ctl, x.y, g, true);
    Wires(x.ctl, x.y, g, k.valid);
    SystemStep(x, g, k);
  }

  lemma {:induction false} StampFeed(x: System, g: Config, ks: seq<RunTick>)
    requires Programmed(g) && SystemInv(x, g) && Follows(x, ks) && StampHeld(x, 0)
    requires forall j :: 0 <= j < |ks| ==> ks[j].timestamp != 0
    ensures SystemInv(FeedSystem(x, g, ks), g) && StampHeld(FeedSystem(x, g, ks), FirstStamp(x, g, ks))
  {
    FollowFeed(x, g, ks);
    if ks != [] {
      var before := ks[..|ks| - 1];
      StampFeed(x, g, before);
      FollowFeed(x, g, before);
      StampStep(FeedSystem(x, g, before), g, ks[|ks| - 1], FirstStamp(x, g, before));
    }
  }

  /**
   * With nonzero timestamps, the cap_ts of every packet whose samples_captured is size + 1
   * is the timestamp of its region's first sample.
   */
  lemma {:induction false} PacketStamp(
      ctl: Control, sh: Shared, chans: Chans, g: Config, k1: RunTick, k2: RunTick, ks: seq<RunTick>)
    requires Programmed(g) && Spaced(ks) && forall j :: 0 <= j < |ks| ==> ks[j].timestamp != 0
    ensures var x0 := PowerUp(ctl, sh, chans, g, k1, k2);
            var x := FeedSystem(x0, g, ks);
            x.sh.capReg && x.sh.samples == g.size + 1 ==> x.sh.capTs == FirstStamp(x0, g, ks)
  {
    var x0 := PowerUp(ctl, sh, chans, g, k1, k2);
    PowerUpInv(ctl, sh, chans, g, k1, k2);
    StampFeed(x0, g, ks);
  }

  // ---------------------------------------------------------------- a run on which both happen

  /** One region of two samples, one delay sample. */
  const SMALL := Config(1, 0, 1, 1, false)

  function Tick(trig: bool, valid: bool): RunTick {
    RunTick(trig, valid, Sample(seq(NUM_CH, _ => 0), seq(NUM_CH, _ => true)), 0, 1)
  }

  /**
   * Trigger, three samples with a clock between them, the next trigger in the clock right
   * after the cycle and a sample in the clock after that, two more samples, one clock.
   */
  predicate Trig(j: nat) { j == 0 || j == 6 }

  predicate Valid(j: nat) { j == 1 || j == 3 || j == 5 || j == 7 || j == 9 || j == 11 }

  function Script(): (ks: seq<RunTick>)
    ensures |ks| == 13 && forall j :: 0 <= j < 13 ==> ks[j] == Tick(Trig(j), Valid(j))
  {
    seq(13, j requires j >= 0 => Tick(Trig(j), Valid(j)))
  }

  /** The registers that labels and sample counts depend on. */
  datatype Front = Front(
    cycleCnt: nat, regionCnt: nat, sampleCnt: nat, startReg: bool, capReg: bool, started: bool, samples: nat)

  predicate Has(x: System, f: Front) {
    && x.ctl.cycleCnt == f.cycleCnt && x.ctl.regionCnt == f.regionCnt && x.ctl.sampleCnt == f.sampleCnt
    && x.sh.startReg == f.startReg && x.sh.capReg == f.capReg && x.sh.started == f.started
    && x.sh.samples == f.samples
  }

  /** What a clock of the script makes of them. */
  function Turn(f: Front, trig: bool, valid: bool): Front {
    var active, ena, last := f.cycleCnt > 1, f.cycleCnt >= 1, valid && f.sampleCnt == 1;
    var start := f.sampleCnt == 0 && active && !(last && f.regionCnt == 0);
    var running := (ena && start) || f.started;
    var cycleCnt := if f.cycleCnt != 0 && valid then f.cycleCnt + 1 else f.cycleCnt;
    Front(
      if active then if last && f.regionCnt == 0 then 0 else cycleCnt else if trig then 1 else cycleCnt,
      if active then if last then f.regionCnt + 1 else f.regionCnt else if trig then 0 else f.regionCnt,
      if active then if last then 0 else if valid then f.sampleCnt + 1 else f.sampleCnt
      else if trig then 0 else f.sampleCnt,
      start,
      f.started && ((start && !f.startReg) || !ena),
      (ena && start) || (ena && f.started),
      if f.capReg then if ena && valid then 1 else 0 else if running && valid then f.samples + 1 else f.samples)
  }

  lemma {:induction false} Turns(x: System, f: Front, trig: bool, valid: bool)
    requires Has(x, f) && f.cycleCnt <= 100 && f.regionCnt <= 100 && f.sampleCnt <= 100 && f.samples <= 100
    ensures Has(SystemNext(x, SMALL, Tick(trig, valid)), Turn(f, trig, valid))
  {
  }

  /** State after the first j clocks of the script. */
  function At(x: System, j: nat): System
    requires j <= 13
  {
    FeedSystem(x, SMALL, Script()[..j])
  }

  lemma {:induction false} AtNext(x: System, j: nat)
    requires j < 13
    ensures At(x, j + 1) == SystemNext(At(x, j), SMALL, Tick(Trig(j), Valid(j)))
  {
    assert Script()[..j + 1][..j] == Script()[..j];
  }

  function FrontAt(j: nat): Front {
    if j == 0 then Front(0, 0, 0, false, false, false, 0) else Turn(FrontAt(j - 1), Trig(j - 1), Valid(j - 1))
  }

  lemma {:induction false} FrontSmall(j: nat)
    ensures var f := FrontAt(j); f.cycleCnt <= j && f.regionCnt <= j && f.sampleCnt <= j && f.samples <= j
  {
    if j > 0 {
      FrontSmall(j - 1);
    }
  }

  lemma {:induction false} AtHas(x: System, j: nat)
    requires Has(x, FrontAt(0)) && j <= 13
    ensures Has(At(x, j), FrontAt(j))
  {
    if j == 0 {
      assert Script()[..0] == [];
    } else {
      AtHas(x, j - 1);
      AtNext(x, j - 1);
      FrontSmall(j - 1);
      Turns(At(x, j - 1), FrontAt(j - 1), Trig(j - 1), Valid(j - 1));
    }
  }

  lemma {:induction false} FrontValues()
    ensures FrontAt(7) == Front(1, 0, 0, false, true, false, 2)
    ensures FrontAt(13) == Front(0, 1, 0, false, true, false, 3)
  {
    assert FrontAt(4) == Front(3, 0, 1, true, false, true, 1);
    assert FrontAt(10) == Front(3, 0, 1, true, false, true, 2);
  }

  /**
   * From any power-up state, under a permitted setting with R = 1 and size = 1: the only
   * packet of the first cycle is labelled 0 instead of 1, and that of the second reports
   * samples_captured = 3 instead of 2.
   */
  lemma {:induction false} EarlyTriggerHappens(ctl: Control, sh: Shared, chans: Chans, k1: RunTick, k2: RunTick)
    ensures Programmed(SMALL) && Spaced(Script())
    ensures var x0 := PowerUp(ctl, sh, chans, SMALL, k1, k2);
            && At(x0, 7).sh.capReg && CapRegion(At(x0, 7).ctl) == 0
            && At(x0, 13).sh.capReg && At(x0, 13).sh.samples == SMALL.size + 2
  {
    var x0 := PowerUp(ctl, sh, chans, SMALL, k1, k2);
    assert Has(x0, Front(0, 0, 0, false, false, false, 0));
    AtHas(x0, 7);
    AtHas(x0, 13);
    FrontValues();
  }
}
